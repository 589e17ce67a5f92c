/** The prop screener (`build_screener`): finds the player column, groups the
    game rows by player and, for every requested (prop, line) pair whose
    column exists, turns the player's last ten rows into one record carrying
    the recent average, the hit rate against the line and an integer
    confidence. */
module Screener {
  import opened Table

  /** One cell of the screener's input frame. `Missing` is a NaN cell. */
  datatype Cell = Num(x: real) | Text(s: string) | Missing

  type Row = map<string, Cell>

  /** Why the build fails: no player column at all, or a window holding a
      text cell, which cannot be compared with a numeric line. */
  datatype ScreenError = NoPlayerColumn | NonNumericWindow

  /** A requested prop and its line, one entry of the line map. */
  type PropLine = (string, real)

  /** One output row of the screener. `avgLast10` is `None` when the window
      holds no numeric value (pandas yields NaN). */
  datatype Record = Record(
    player: Cell,
    propType: string,
    line: real,
    avgLast10: Option<real>,
    hitRateLast10: real,
    confidence: int)

  /** The rows that share one player key, in frame order. */
  datatype Group = Group(key: Cell, rows: seq<Row>)

  /** The player-column names tried, in priority order. */
  const PlayerColumns: seq<string> := ["player", "PLAYER_NAME", "Player", "NAME"]

  /** Prop names that are renamed before the column lookup; any other prop is its own column name. */
  const ColumnRenames: map<string, string> := map["PTS" := "pts", "REB" := "reb", "AST" := "ast", "3PM" := "3pm"]

  /** How many trailing rows of a player's group the statistics look at. */
  const WindowSize: nat := 10

  /** The first of `names` that is a column of the frame, if any. */
  function FirstPresent(names: seq<string>, columns: set<string>): (r: Option<string>)
    ensures r.None? <==> forall k :: 0 <= k < |names| ==> names[k] !in columns
    ensures r.Some? ==>
      exists k :: 0 <= k < |names| && names[k] == r.value && r.value in columns &&
        forall j :: 0 <= j < k ==> names[j] !in columns
  {
    if |names| == 0 then None
    else if names[0] in columns then Some(names[0])
    else
      var r' := FirstPresent(names[1..], columns);
      assert forall k :: 1 <= k < |names| ==> names[k] == names[1..][k - 1];
      r'
  }

  /** The column the screener groups by: the first candidate present, in priority order. */
  function PlayerColumn(columns: set<string>): (pc: Option<string>)
    ensures pc.None? <==> forall k :: 0 <= k < |PlayerColumns| ==> PlayerColumns[k] !in columns
    ensures pc.Some? ==>
      exists k :: 0 <= k < |PlayerColumns| && PlayerColumns[k] == pc.value && pc.value in columns &&
        forall j :: 0 <= j < k ==> PlayerColumns[j] !in columns
  {
    FirstPresent(PlayerColumns, columns)
  }

  /** The column a prop is read from: its rename if it has one, else the prop name. */
  function ColumnFor(prop: string): string
  {
    if prop in ColumnRenames then ColumnRenames[prop] else prop
  }

  /** `col_map.get(prop, prop)`: the four base props are read from their
      lower-case columns; every other prop is read from the column of its
      own name. */
  lemma ColumnForRenames(prop: string)
    ensures prop == "PTS" ==> ColumnFor(prop) == "pts"
    ensures prop == "REB" ==> ColumnFor(prop) == "reb"
    ensures prop == "AST" ==> ColumnFor(prop) == "ast"
    ensures prop == "3PM" ==> ColumnFor(prop) == "3pm"
    ensures prop != "PTS" && prop != "REB" && prop != "AST" && prop != "3PM" ==> ColumnFor(prop) == prop
  {
  }

  function KeyOf(row: Row, playerColumn: string): Cell
  {
    Lookup(row, playerColumn, Missing)
  }

  /** The distinct non-missing player keys, in order of first appearance. */
  function GroupKeys(rows: seq<Row>, playerColumn: string): (keys: seq<Cell>)
    ensures forall k :: k in keys <==>
      k != Missing && exists i :: 0 <= i < |rows| && KeyOf(rows[i], playerColumn) == k
    ensures forall i, j :: 0 <= i < j < |keys| ==> keys[i] != keys[j]
  {
    if |rows| == 0 then []
    else
      var prefix := rows[..|rows| - 1];
      var prev := GroupKeys(prefix, playerColumn);
      var k := KeyOf(rows[|rows| - 1], playerColumn);
      assert forall i :: 0 <= i < |prefix| ==> prefix[i] == rows[i];
      if k == Missing || k in prev then prev else prev + [k]
  }

  /** The mask `df[playerColumn] == key`. */
  function HasKey(playerColumn: string, key: Cell): Row -> bool
  {
    row => KeyOf(row, playerColumn) == key
  }

  /** The rows whose player key is `key`, in frame order. */
  function RowsWithKey(rows: seq<Row>, playerColumn: string, key: Cell): (g: seq<Row>)
    ensures (exists i :: 0 <= i < |rows| && KeyOf(rows[i], playerColumn) == key) ==> |g| > 0
  {
    if |rows| == 0 then []
    else
      var prefix := rows[..|rows| - 1];
      var last := rows[|rows| - 1];
      assert forall i :: 0 <= i < |prefix| ==> prefix[i] == rows[i];
      RowsWithKey(prefix, playerColumn, key) + (if KeyOf(last, playerColumn) == key then [last] else [])
  }

  /** `df[df[playerColumn] == key]`: element k of the selection is the row at
      the k-th position holding the key, so the selection keeps frame order
      and repetitions. */
  lemma {:induction false} RowsWithKeySelects(rows: seq<Row>, playerColumn: string, key: Cell)
    ensures var g, ps := RowsWithKey(rows, playerColumn, key), Positions(rows, HasKey(playerColumn, key));
      |g| == |ps| && forall k :: 0 <= k < |g| ==> g[k] == rows[ps[k]]
  {
    if |rows| > 0 {
      var n := |rows| - 1;
      var prefix, last := rows[..n], rows[n];
      var keep := HasKey(playerColumn, key);
      RowsWithKeySelects(prefix, playerColumn, key);
      var g0, ps0 := RowsWithKey(prefix, playerColumn, key), Positions(prefix, keep);
      var g, ps := RowsWithKey(rows, playerColumn, key), Positions(rows, keep);
      assert keep(last) == (KeyOf(last, playerColumn) == key);
      assert g == g0 + (if keep(last) then [last] else []);
      assert ps == ps0 + (if keep(last) then [n] else []);
      forall k | 0 <= k < |g0|
        ensures g[k] == rows[ps[k]]
      {
        assert ps[k] == ps0[k] < n;
        assert rows[ps0[k]] == prefix[ps0[k]];
      }
    }
  }

  /** The selection holds every row with the key and no other row. */
  lemma {:induction false} RowsWithKeyMembers(rows: seq<Row>, playerColumn: string, key: Cell)
    ensures forall r :: r in RowsWithKey(rows, playerColumn, key) ==> KeyOf(r, playerColumn) == key
    ensures forall j :: 0 <= j < |rows| && KeyOf(rows[j], playerColumn) == key ==>
      rows[j] in RowsWithKey(rows, playerColumn, key)
  {
    if |rows| > 0 {
      var n := |rows| - 1;
      var prefix, last := rows[..n], rows[n];
      RowsWithKeyMembers(prefix, playerColumn, key);
      var g0, g := RowsWithKey(prefix, playerColumn, key), RowsWithKey(rows, playerColumn, key);
      assert g == g0 + (if KeyOf(last, playerColumn) == key then [last] else []);
      forall j | 0 <= j < n && KeyOf(rows[j], playerColumn) == key
        ensures rows[j] in g
      {
        assert rows[j] == prefix[j];
      }
    }
  }

  /** pandas `groupby(player_column)`: one non-empty group per distinct
      non-missing key; rows whose key is missing belong to no group. */
  function Groups(rows: seq<Row>, playerColumn: string): (gs: seq<Group>)
    ensures forall i :: 0 <= i < |gs| ==> |gs[i].rows| > 0
    ensures forall i, j :: 0 <= i < j < |gs| ==> gs[i].key != gs[j].key
    ensures forall i :: 0 <= i < |gs| ==>
      gs[i].key != Missing && exists j :: 0 <= j < |rows| && KeyOf(rows[j], playerColumn) == gs[i].key
    ensures forall j :: 0 <= j < |rows| && KeyOf(rows[j], playerColumn) != Missing ==>
      exists i :: 0 <= i < |gs| && gs[i].key == KeyOf(rows[j], playerColumn)
  {
    var keys := GroupKeys(rows, playerColumn);
    var gs := seq(|keys|, i requires 0 <= i < |keys| => Group(keys[i], RowsWithKey(rows, playerColumn, keys[i])));
    assert forall i :: 0 <= i < |gs| ==> gs[i].key == keys[i] && gs[i].key in keys;
    assert forall j :: 0 <= j < |rows| && KeyOf(rows[j], playerColumn) != Missing ==>
      KeyOf(rows[j], playerColumn) in keys;
    gs
  }

  /** Each group holds exactly its player's rows, in frame order (element k
      is the k-th row holding the key); a row whose key is missing is in no
      group. */
  lemma GroupRows(rows: seq<Row>, playerColumn: string)
    ensures var gs := Groups(rows, playerColumn);
      forall i :: 0 <= i < |gs| ==> gs[i].rows == RowsWithKey(rows, playerColumn, gs[i].key)
    ensures var gs := Groups(rows, playerColumn);
      forall i, r :: 0 <= i < |gs| && r in gs[i].rows ==>
        KeyOf(r, playerColumn) == gs[i].key && KeyOf(r, playerColumn) != Missing
  {
    var gs := Groups(rows, playerColumn);
    forall i | 0 <= i < |gs| {
      RowsWithKeyMembers(rows, playerColumn, gs[i].key);
    }
  }

  /** NaN >= line is false: only a number at or above the line is a hit. */
  predicate IsHit(c: Cell, line: real)
  {
    c.Num? && c.x >= line
  }

  /** The number of hits in a window. */
  function HitCount(w: seq<Cell>, line: real): (n: nat)
    ensures n <= |w|
  {
    if |w| == 0 then 0
    else HitCount(w[..|w| - 1], line) + (if IsHit(w[|w| - 1], line) then 1 else 0)
  }

  /** pandas `(window >= line).mean()`: the share of the window's rows that
      are hits; a missing cell stays in the denominator as a miss. */
  function HitRate(w: seq<Cell>, line: real): (hr: real)
    requires |w| > 0
    ensures 0.0 <= hr <= 1.0
  {
    (HitCount(w, line) as real) / (|w| as real)
  }

  /** Python `int(x)`: truncation toward zero. */
  function Truncate(x: real): int
  {
    if x >= 0.0 then x.Floor else -((-x).Floor)
  }

  /** `int(hit_rate * 100)`: for a hit rate in [0, 1], the whole percentage
      rounded down, between 0 and 100. */
  function Confidence(hitRate: real): (c: int)
    ensures hitRate >= 0.0 ==> c as real <= 100.0 * hitRate < c as real + 1.0
    ensures 0.0 <= hitRate <= 1.0 ==> 0 <= c <= 100
  {
    Truncate(100.0 * hitRate)
  }

  /** A cell as the mean sees it: numbers count, anything else is NaN. */
  function AsNumber(c: Cell): Option<real>
  {
    if c.Num? then Some(c.x) else None
  }

  function Numbers(w: seq<Cell>): (xs: seq<Option<real>>)
    ensures |xs| == |w|
    ensures forall i :: 0 <= i < |w| ==> xs[i] == AsNumber(w[i])
  {
    seq(|w|, i requires 0 <= i < |w| => AsNumber(w[i]))
  }

  /** A window the comparison `>=` and the mean accept: no text cell. */
  predicate Comparable(w: seq<Cell>)
  {
    forall i :: 0 <= i < |w| ==> !w[i].Text?
  }

  /** `pdf[col].tail(10)`: the cells of the group's last min(10, n) rows in column `col`. */
  function Window(rows: seq<Row>, col: string): (w: seq<Cell>)
    ensures |w| == Min(WindowSize, |rows|)
    ensures forall i :: 0 <= i < |w| ==> w[i] == Lookup(rows[|rows| - |w| + i], col, Missing)
  {
    Tail(ColumnOf(rows, col, Missing), WindowSize)
  }

  /** The prop's column exists and the group's window in it holds a text cell. */
  predicate TextInWindow(g: Group, prop: string, columns: set<string>)
  {
    ColumnFor(prop) in columns && !Comparable(Window(g.rows, ColumnFor(prop)))
  }

  /** The record for one group and one requested prop: `Ok(None)` when the
      prop's column is absent (a skip), `Err` when the window cannot be
      compared with the line. */
  function RecordFor(g: Group, pl: PropLine, columns: set<string>): Result<Option<Record>, ScreenError>
    requires |g.rows| > 0
  {
    var (prop, line) := pl;
    var col := ColumnFor(prop);
    if col !in columns then Ok(None)
    else
      var w := Window(g.rows, col);
      if !Comparable(w) then Err(NonNumericWindow)
      else
        var hr := HitRate(w, line);
        Ok(Some(Record(g.key, prop, line, MeanSkipMissing(Numbers(w)), hr, Confidence(hr))))
  }

  /** The outcome of one (group, prop) step of the inner loop. */
  type Step = Result<Option<Record>, ScreenError>

  /** The outcome of one group's pass over the line map. */
  type Part = Result<seq<Record>, ScreenError>

  /** Records appended in order; the first failure wins. */
  function Then(a: Part, b: Part): Part
  {
    if a.Err? then a else if b.Err? then b else Ok(a.value + b.value)
  }

  function AsRecords(step: Step): Part
  {
    match step
    case Err(e) => Err(e)
    case Ok(None) => Ok([])
    case Ok(Some(rec)) => Ok([rec])
  }

  /** Appending the records of a sequence of steps, stopping at the first failure. */
  function Collect(steps: seq<Step>): Part
  {
    if |steps| == 0 then Ok([])
    else Then(Collect(steps[..|steps| - 1]), AsRecords(steps[|steps| - 1]))
  }

  /** Appending the records of a sequence of parts, stopping at the first failure. */
  function Concat(parts: seq<Part>): Part
  {
    if |parts| == 0 then Ok([])
    else Then(Concat(parts[..|parts| - 1]), parts[|parts| - 1])
  }

  /** The steps of the inner loop for one group, one per line-map entry. */
  function Steps(g: Group, lines: seq<PropLine>, columns: set<string>): (steps: seq<Step>)
    requires |g.rows| > 0
    ensures |steps| == |lines|
    ensures forall j :: 0 <= j < |lines| ==> steps[j] == RecordFor(g, lines[j], columns)
  {
    seq(|lines|, j requires 0 <= j < |lines| => RecordFor(g, lines[j], columns))
  }

  /** The inner loop over the line map, for one group. */
  function ScreenProps(g: Group, lines: seq<PropLine>, columns: set<string>): Part
    requires |g.rows| > 0
  {
    Collect(Steps(g, lines, columns))
  }

  predicate NonEmptyGroups(gs: seq<Group>)
  {
    forall i :: 0 <= i < |gs| ==> |gs[i].rows| > 0
  }

  /** The parts of the outer loop, one per group. */
  function Parts(gs: seq<Group>, lines: seq<PropLine>, columns: set<string>): (parts: seq<Part>)
    requires NonEmptyGroups(gs)
    ensures |parts| == |gs|
    ensures forall i :: 0 <= i < |gs| ==> parts[i] == ScreenProps(gs[i], lines, columns)
  {
    seq(|gs|, i requires 0 <= i < |gs| => ScreenProps(gs[i], lines, columns))
  }

  /** The outer loop over the groups. */
  function ScreenGroups(gs: seq<Group>, lines: seq<PropLine>, columns: set<string>): Part
    requires NonEmptyGroups(gs)
  {
    Concat(Parts(gs, lines, columns))
  }

  /** What `build_screener(df, line_map)` returns or raises. */
  function Screen(df: Frame<Cell>, lines: seq<PropLine>): Part
  {
    match PlayerColumn(df.columns)
    case None => Err(NoPlayerColumn)
    case Some(pc) => ScreenGroups(Groups(df.rows, pc), lines, df.columns)
  }

  /** `build_screener`: the outer loop over the player groups, appending
      each group's records; the inner loop is `ScreenPlayer`. */
  method BuildScreener(df: Frame<Cell>, lines: seq<PropLine>) returns (r: Part)
    ensures r == Screen(df, lines)
    ensures r == Err(NoPlayerColumn) <==> forall k :: 0 <= k < |PlayerColumns| ==> PlayerColumns[k] !in df.columns
  {
    var playerColumn := PlayerColumn(df.columns);
    if playerColumn.None? {
      return Err(NoPlayerColumn);
    }
    var groups := Groups(df.rows, playerColumn.value);
    ghost var parts := Parts(groups, lines, df.columns);
    var records: seq<Record> := [];
    var gi := 0;
    while gi < |groups|
      invariant 0 <= gi <= |groups|
      invariant Concat(parts[..gi]) == Ok(records)
    {
      var playerRecords := ScreenPlayer(groups[gi], lines, df.columns);
      ConcatStep(parts, gi);
      if playerRecords.Err? {
        ConcatFailurePersists(parts, gi + 1);
        ScreenGroupsFailure(groups, lines, df.columns);
        return Err(NonNumericWindow);
      }
      records := records + playerRecords.value;
      gi := gi + 1;
    }
    assert parts[..gi] == parts;
    r := Ok(records);
  }

  /** The inner loop of `build_screener` over the line map for one player
      group: one record per prop whose column exists, none for the others. */
  method ScreenPlayer(g: Group, lines: seq<PropLine>, columns: set<string>) returns (r: Part)
    requires |g.rows| > 0
    ensures r == ScreenProps(g, lines, columns)
    ensures r.Err? ==> r == Err(NonNumericWindow)
  {
    ghost var steps := Steps(g, lines, columns);
    var records: seq<Record> := [];
    var li := 0;
    while li < |lines|
      invariant 0 <= li <= |lines|
      invariant Collect(steps[..li]) == Ok(records)
    {
      var (prop, line) := lines[li];
      CollectStep(steps, li);
      var colName := ColumnFor(prop);
      if colName in columns {
        var last10 := Window(g.rows, colName);
        if !Comparable(last10) {
          assert steps[li] == Err(NonNumericWindow);
          CollectFailurePersists(steps, li + 1);
          return Err(NonNumericWindow);
        }
        var avgLast10 := MeanSkipMissing(Numbers(last10));
        var hitRate := HitRate(last10, line);
        var confidence := Confidence(hitRate);
        var rec := Record(g.key, prop, line, avgLast10, hitRate, confidence);
        assert steps[li] == Ok(Some(rec));
        records := records + [rec];
      } else {
        assert steps[li] == Ok(None);
        assert records + [] == records;
      }
      li := li + 1;
    }
    assert steps[..li] == steps;
    r := Ok(records);
  }

  // ---------------------------------------------------------------------
  // The folds

  lemma CollectStep(steps: seq<Step>, n: nat)
    requires n < |steps|
    ensures Collect(steps[..n + 1]) == Then(Collect(steps[..n]), AsRecords(steps[n]))
  {
    assert steps[..n + 1][..n] == steps[..n];
  }

  lemma ConcatStep(parts: seq<Part>, n: nat)
    requires n < |parts|
    ensures Concat(parts[..n + 1]) == Then(Concat(parts[..n]), parts[n])
  {
    assert parts[..n + 1][..n] == parts[..n];
  }

  /** Once a prefix of the steps fails, the whole fold fails the same way. */
  lemma {:induction false} CollectFailurePersists(steps: seq<Step>, n: nat)
    requires n <= |steps| && Collect(steps[..n]).Err?
    ensures Collect(steps) == Collect(steps[..n])
  {
    if n < |steps| {
      assert steps[..|steps| - 1][..n] == steps[..n];
      CollectFailurePersists(steps[..|steps| - 1], n);
    } else {
      assert steps[..n] == steps;
    }
  }

  /** Once a prefix of the parts fails, the whole fold fails the same way. */
  lemma {:induction false} ConcatFailurePersists(parts: seq<Part>, n: nat)
    requires n <= |parts| && Concat(parts[..n]).Err?
    ensures Concat(parts) == Concat(parts[..n])
  {
    if n < |parts| {
      assert parts[..|parts| - 1][..n] == parts[..n];
      ConcatFailurePersists(parts[..|parts| - 1], n);
    } else {
      assert parts[..n] == parts;
    }
  }

  /** The fold of steps fails exactly when a step fails, and then with that
      step's error; otherwise it yields at most one record per step: exactly
      the records the steps carry. */
  lemma {:induction false} CollectContents(steps: seq<Step>)
    ensures Collect(steps).Err? <==> exists j :: 0 <= j < |steps| && steps[j].Err?
    ensures Collect(steps).Err? ==> exists j :: 0 <= j < |steps| && steps[j] == Err(Collect(steps).error)
    ensures Collect(steps).Ok? ==>
      && |Collect(steps).value| <= |steps|
      && (forall rec :: rec in Collect(steps).value <==>
            exists j :: 0 <= j < |steps| && steps[j] == Ok(Some(rec)))
  {
    if |steps| > 0 {
      var pre := steps[..|steps| - 1];
      CollectContents(pre);
      assert forall j :: 0 <= j < |pre| ==> pre[j] == steps[j];
      if Collect(pre).Ok? && steps[|steps| - 1].Ok? {
        var rs := Collect(steps).value;
        forall rec | exists j :: 0 <= j < |steps| && steps[j] == Ok(Some(rec))
          ensures rec in rs
        {
          var j :| 0 <= j < |steps| && steps[j] == Ok(Some(rec));
          if j < |pre| {
            assert pre[j] == Ok(Some(rec));
          }
        }
      }
    }
  }

  /** The fold of parts fails exactly when a part fails, and then with that
      part's error; otherwise it yields exactly the parts' records, at most
      `bound` per part. */
  lemma {:induction false} ConcatContents(parts: seq<Part>, bound: nat)
    ensures Concat(parts).Err? <==> exists i :: 0 <= i < |parts| && parts[i].Err?
    ensures Concat(parts).Err? ==> exists i :: 0 <= i < |parts| && parts[i] == Concat(parts)
    ensures Concat(parts).Ok? ==>
      && (forall rec :: rec in Concat(parts).value <==>
            exists i :: 0 <= i < |parts| && parts[i].Ok? && rec in parts[i].value)
      && ((forall i :: 0 <= i < |parts| && parts[i].Ok? ==> |parts[i].value| <= bound) ==>
            |Concat(parts).value| <= |parts| * bound)
  {
    if |parts| > 0 {
      var pre := parts[..|parts| - 1];
      ConcatContents(pre, bound);
      assert forall i :: 0 <= i < |pre| ==> pre[i] == parts[i];
      var n := |parts|;
      assert (n - 1) * bound + bound == n * bound;
      if Concat(pre).Ok? && parts[n - 1].Ok? {
        var rs := Concat(parts).value;
        forall rec | exists i :: 0 <= i < |parts| && parts[i].Ok? && rec in parts[i].value
          ensures rec in rs
        {
          var i :| 0 <= i < |parts| && parts[i].Ok? && rec in parts[i].value;
          if i < |pre| {
            assert pre[i].Ok? && rec in pre[i].value;
          }
        }
      }
    }
  }

  /** The outer loop can only fail on a non-numeric window. */
  lemma ScreenGroupsFailure(gs: seq<Group>, lines: seq<PropLine>, columns: set<string>)
    requires NonEmptyGroups(gs)
    ensures ScreenGroups(gs, lines, columns).Err? ==> ScreenGroups(gs, lines, columns) == Err(NonNumericWindow)
  {
    var parts := Parts(gs, lines, columns);
    ConcatContents(parts, 0);
    if Concat(parts).Err? {
      var i :| 0 <= i < |parts| && parts[i] == Concat(parts);
      var steps := Steps(gs[i], lines, columns);
      CollectContents(steps);
      var j :| 0 <= j < |steps| && steps[j] == Err(Collect(steps).error);
      assert steps[j] == RecordFor(gs[i], lines[j], columns);
    }
  }

  predicate DistinctProps(lines: seq<PropLine>)
  {
    forall i, j :: 0 <= i < j < |lines| ==> lines[i].0 != lines[j].0
  }

  /** At most one record per (player, prop) pair. */
  predicate OnePerPair(rs: seq<Record>)
  {
    forall i, j :: 0 <= i < j < |rs| ==> rs[i].player != rs[j].player || rs[i].propType != rs[j].propType
  }

  /** Steps that each carry the prop of a distinct line-map entry fold into
      records with distinct props, all of the group's player. */
  lemma {:induction false} CollectOnePerPair(steps: seq<Step>, player: Cell, props: seq<string>)
    requires |props| == |steps|
    requires forall i, j :: 0 <= i < j < |props| ==> props[i] != props[j]
    requires forall j :: 0 <= j < |steps| && steps[j].Ok? && steps[j].value.Some? ==>
      steps[j].value.value.player == player && steps[j].value.value.propType == props[j]
    requires Collect(steps).Ok?
    ensures OnePerPair(Collect(steps).value)
    ensures forall rec :: rec in Collect(steps).value ==> rec.player == player
  {
    CollectContents(steps);
    if |steps| > 0 {
      var n := |steps|;
      var pre := steps[..n - 1];
      assert forall j :: 0 <= j < |pre| ==> pre[j] == steps[j];
      CollectOnePerPair(pre, player, props[..n - 1]);
      CollectContents(pre);
      var prev := Collect(pre).value;
      if steps[n - 1].value.Some? {
        var rec := steps[n - 1].value.value;
        assert Collect(steps).value == prev + [rec];
        forall k | 0 <= k < |prev| ensures prev[k].propType != rec.propType {
          assert prev[k] in prev;
          var j :| 0 <= j < |pre| && pre[j] == Ok(Some(prev[k]));
          assert prev[k].propType == props[j];
        }
      } else {
        assert Collect(steps).value == prev + [];
      }
    }
  }

  /** Parts whose records belong to distinct players, each part with at most
      one record per prop, fold into at most one record per (player, prop). */
  lemma {:induction false} ConcatOnePerPair(parts: seq<Part>, keys: seq<Cell>)
    requires |keys| == |parts|
    requires forall i, j :: 0 <= i < j < |keys| ==> keys[i] != keys[j]
    requires forall i :: 0 <= i < |parts| && parts[i].Ok? ==>
      OnePerPair(parts[i].value) && forall rec :: rec in parts[i].value ==> rec.player == keys[i]
    requires Concat(parts).Ok?
    ensures OnePerPair(Concat(parts).value)
  {
    if |parts| > 0 {
      var n := |parts|;
      var pre := parts[..n - 1];
      assert forall i :: 0 <= i < |pre| ==> pre[i] == parts[i];
      ConcatOnePerPair(pre, keys[..n - 1]);
      ConcatContents(pre, 0);
      var prev := Concat(pre).value;
      var cur := parts[n - 1].value;
      assert Concat(parts).value == prev + cur;
      forall k | 0 <= k < |prev| ensures prev[k].player != keys[n - 1] {
        assert prev[k] in prev;
        var i :| 0 <= i < |pre| && pre[i].Ok? && prev[k] in pre[i].value;
        assert prev[k].player == keys[i];
      }
      forall k | 0 <= k < |cur| ensures cur[k].player == keys[n - 1] {
        assert cur[k] in cur;
      }
    }
  }

  // ---------------------------------------------------------------------
  // Properties of one record

  /** What one (group, prop) step yields: a skip exactly when the prop's
      column is absent, a failure exactly when the window holds text, and
      otherwise a record carrying the group's key, the prop and the line as
      given, the hit share of the last min(10, n) rows and its percentage. */
  lemma RecordForOutcome(g: Group, pl: PropLine, columns: set<string>)
    requires |g.rows| > 0
    ensures RecordFor(g, pl, columns) == Ok(None) <==> ColumnFor(pl.0) !in columns
    ensures RecordFor(g, pl, columns).Err? <==> TextInWindow(g, pl.0, columns)
    ensures RecordFor(g, pl, columns).Err? ==> RecordFor(g, pl, columns).error == NonNumericWindow
    ensures RecordFor(g, pl, columns).Ok? && RecordFor(g, pl, columns).value.Some? ==>
      var rec := RecordFor(g, pl, columns).value.value;
      var w := Window(g.rows, ColumnFor(pl.0));
      && |w| == Min(WindowSize, |g.rows|)
      && rec.player == g.key && rec.propType == pl.0 && rec.line == pl.1
      && rec.hitRateLast10 == (HitCount(w, pl.1) as real) / (|w| as real)
      && 0.0 <= rec.hitRateLast10 <= 1.0
      && 0 <= rec.confidence <= 100
      && rec.confidence as real <= 100.0 * rec.hitRateLast10 < rec.confidence as real + 1.0
      && (rec.avgLast10.None? <==> forall i :: 0 <= i < |w| ==> !w[i].Num?)
      && rec.avgLast10 == MeanSkipMissing(Numbers(w))
      && (rec.avgLast10.Some? ==>
            Minimum(Present(Numbers(w))) <= rec.avgLast10.value <= Maximum(Present(Numbers(w))))
  {
    var col := ColumnFor(pl.0);
    if col in columns {
      var w := Window(g.rows, col);
      var xs := Numbers(w);
      assert (forall i :: 0 <= i < |w| ==> !w[i].Num?) <==> (forall i :: 0 <= i < |xs| ==> xs[i].None?);
      if MeanSkipMissing(xs).Some? {
        MeanSkipMissingWithinRange(xs);
      }
    }
  }

  /** Raising the line never adds a hit. */
  lemma {:induction false} HitCountAntitone(w: seq<Cell>, lower: real, higher: real)
    requires lower <= higher
    ensures HitCount(w, higher) <= HitCount(w, lower)
  {
    if |w| > 0 {
      HitCountAntitone(w[..|w| - 1], lower, higher);
    }
  }

  /** With the same history, raising the line never raises the hit rate. */
  lemma HitRateAntitone(w: seq<Cell>, lower: real, higher: real)
    requires |w| > 0 && lower <= higher
    ensures HitRate(w, higher) <= HitRate(w, lower)
  {
    HitCountAntitone(w, lower, higher);
    QuotientMonotone(HitCount(w, higher) as real, HitCount(w, lower) as real, |w| as real);
  }

  /** The hit count is the number of window rows holding a number at or
      above the line; missing and text cells are misses. */
  lemma {:induction false} HitCountIsCount(w: seq<Cell>, line: real)
    ensures HitCount(w, line) == |set i | 0 <= i < |w| && IsHit(w[i], line)|
  {
    if |w| > 0 {
      var pre := w[..|w| - 1];
      HitCountIsCount(pre, line);
      var a := set i | 0 <= i < |pre| && IsHit(pre[i], line);
      var b := set i | 0 <= i < |w| && IsHit(w[i], line);
      assert a == set i | 0 <= i < |w| - 1 && IsHit(w[i], line);
      if IsHit(w[|w| - 1], line) {
        assert b == a + {|w| - 1};
      } else {
        assert b == a;
      }
    }
  }

  /** A missing cell is left out of the average but stays in the hit-rate
      denominator as a miss: over [30, NaN] against 20 the average is 30
      and the hit rate one half. */
  lemma MissingLeftOutOfMeanButCountedAsMiss()
    ensures MeanSkipMissing(Numbers([Num(30.0), Missing])) == Some(30.0)
    ensures HitRate([Num(30.0), Missing], 20.0) == 0.5
  {
    var w := [Num(30.0), Missing];
    assert w[..1] == [Num(30.0)];
    assert Numbers(w) == [Some(30.0), None];
    assert [Some(30.0), None][..1] == [Some(30.0)];
    assert Present(Numbers(w)) == [30.0];
    assert [30.0][..0] == [];
    assert HitCount(w, 20.0) == 1;
  }

  // ---------------------------------------------------------------------
  // Properties of the whole build

  /** The outer loop fails exactly when some step fails. */
  lemma ScreenGroupsFails(gs: seq<Group>, lines: seq<PropLine>, cols: set<string>)
    requires NonEmptyGroups(gs)
    ensures ScreenGroups(gs, lines, cols).Err? <==>
      exists i, j :: 0 <= i < |gs| && 0 <= j < |lines| && Steps(gs[i], lines, cols)[j].Err?
  {
    var parts := Parts(gs, lines, cols);
    ConcatContents(parts, 0);
    forall i | 0 <= i < |gs| {
      CollectContents(Steps(gs[i], lines, cols));
    }
    if ScreenGroups(gs, lines, cols).Err? {
      var i :| 0 <= i < |parts| && parts[i].Err?;
      var j :| 0 <= j < |lines| && Steps(gs[i], lines, cols)[j].Err?;
    }
    if exists i, j :: 0 <= i < |gs| && 0 <= j < |lines| && Steps(gs[i], lines, cols)[j].Err? {
      var i, j :| 0 <= i < |gs| && 0 <= j < |lines| && Steps(gs[i], lines, cols)[j].Err?;
      assert parts[i].Err?;
    }
  }

  /** The outer loop fails exactly when some requested prop's column exists
      and some group's window in it holds text. */
  lemma ScreenGroupsFailsOnText(gs: seq<Group>, lines: seq<PropLine>, cols: set<string>)
    requires NonEmptyGroups(gs)
    ensures ScreenGroups(gs, lines, cols).Err? <==>
      exists i, j :: 0 <= i < |gs| && 0 <= j < |lines| && TextInWindow(gs[i], lines[j].0, cols)
  {
    ScreenGroupsFails(gs, lines, cols);
    StepFailures(gs, lines, cols);
    if ScreenGroups(gs, lines, cols).Err? {
      var i, j :| 0 <= i < |gs| && 0 <= j < |lines| && Steps(gs[i], lines, cols)[j].Err?;
      assert TextInWindow(gs[i], lines[j].0, cols);
    }
    if exists i, j :: 0 <= i < |gs| && 0 <= j < |lines| && TextInWindow(gs[i], lines[j].0, cols) {
      var i, j :| 0 <= i < |gs| && 0 <= j < |lines| && TextInWindow(gs[i], lines[j].0, cols);
      assert Steps(gs[i], lines, cols)[j].Err?;
    }
  }

  /** The build fails with the missing-player-column error exactly when none
      of the four candidate names is a column; otherwise it fails exactly
      when some requested prop's column exists and some player's window in
      it holds text. */
  lemma ScreenFailures(df: Frame<Cell>, lines: seq<PropLine>)
    ensures Screen(df, lines) == Err(NoPlayerColumn) <==>
      forall k :: 0 <= k < |PlayerColumns| ==> PlayerColumns[k] !in df.columns
    ensures PlayerColumn(df.columns).Some? ==>
      var gs := Groups(df.rows, PlayerColumn(df.columns).value);
      Screen(df, lines).Err? <==>
        exists i, j :: 0 <= i < |gs| && 0 <= j < |lines| && TextInWindow(gs[i], lines[j].0, df.columns)
  {
    if PlayerColumn(df.columns).Some? {
      var gs := Groups(df.rows, PlayerColumn(df.columns).value);
      ScreenGroupsFailure(gs, lines, df.columns);
      ScreenGroupsFailsOnText(gs, lines, df.columns);
    }
  }

  /** A step fails exactly when its column exists and the window holds text. */
  lemma StepFailures(gs: seq<Group>, lines: seq<PropLine>, cols: set<string>)
    requires NonEmptyGroups(gs)
    ensures forall i, j :: 0 <= i < |gs| && 0 <= j < |lines| ==>
      (Steps(gs[i], lines, cols)[j].Err? <==> TextInWindow(gs[i], lines[j].0, cols))
  {
    forall i, j | 0 <= i < |gs| && 0 <= j < |lines| {
      RecordForOutcome(gs[i], lines[j], cols);
    }
  }

  /** A successful outer loop yields at most |groups| × |props| records. */
  lemma ScreenGroupsCount(gs: seq<Group>, lines: seq<PropLine>, cols: set<string>)
    requires NonEmptyGroups(gs) && ScreenGroups(gs, lines, cols).Ok?
    ensures |ScreenGroups(gs, lines, cols).value| <= |gs| * |lines|
  {
    var parts := Parts(gs, lines, cols);
    forall i | 0 <= i < |gs| && parts[i].Ok? ensures |parts[i].value| <= |lines| {
      CollectContents(Steps(gs[i], lines, cols));
    }
    ConcatContents(parts, |lines|);
  }

  /** A successful outer loop holds exactly the records its steps build, and
      every one of its steps succeeded. */
  lemma ScreenGroupsMembers(gs: seq<Group>, lines: seq<PropLine>, cols: set<string>)
    requires NonEmptyGroups(gs) && ScreenGroups(gs, lines, cols).Ok?
    ensures forall rec :: rec in ScreenGroups(gs, lines, cols).value <==>
      exists i, j :: 0 <= i < |gs| && 0 <= j < |lines| && Steps(gs[i], lines, cols)[j] == Ok(Some(rec))
    ensures forall i, j :: 0 <= i < |gs| && 0 <= j < |lines| ==> Steps(gs[i], lines, cols)[j].Ok?
  {
    var parts := Parts(gs, lines, cols);
    ConcatContents(parts, 0);
    forall i | 0 <= i < |gs| {
      CollectContents(Steps(gs[i], lines, cols));
    }
    var rs := ScreenGroups(gs, lines, cols).value;
    forall rec | rec in rs
      ensures exists i, j :: 0 <= i < |gs| && 0 <= j < |lines| && Steps(gs[i], lines, cols)[j] == Ok(Some(rec))
    {
      var i :| 0 <= i < |parts| && parts[i].Ok? && rec in parts[i].value;
      var j :| 0 <= j < |lines| && Steps(gs[i], lines, cols)[j] == Ok(Some(rec));
    }
    forall rec | exists i, j :: 0 <= i < |gs| && 0 <= j < |lines| && Steps(gs[i], lines, cols)[j] == Ok(Some(rec))
      ensures rec in rs
    {
      var i, j :| 0 <= i < |gs| && 0 <= j < |lines| && Steps(gs[i], lines, cols)[j] == Ok(Some(rec));
      assert rec in parts[i].value;
    }
  }

  /** Distinct group keys and distinct props give at most one record per
      (player, prop). */
  lemma ScreenGroupsOnePerPair(gs: seq<Group>, lines: seq<PropLine>, cols: set<string>)
    requires NonEmptyGroups(gs) && ScreenGroups(gs, lines, cols).Ok?
    requires DistinctProps(lines)
    requires forall i, j :: 0 <= i < j < |gs| ==> gs[i].key != gs[j].key
    ensures OnePerPair(ScreenGroups(gs, lines, cols).value)
  {
    var parts := Parts(gs, lines, cols);
    var props := seq(|lines|, j requires 0 <= j < |lines| => lines[j].0);
    forall i | 0 <= i < |gs| && parts[i].Ok?
      ensures OnePerPair(parts[i].value) && forall rec :: rec in parts[i].value ==> rec.player == gs[i].key
    {
      var steps := Steps(gs[i], lines, cols);
      forall j | 0 <= j < |steps| && steps[j].Ok? && steps[j].value.Some?
        ensures steps[j].value.value.player == gs[i].key && steps[j].value.value.propType == props[j]
      {
        RecordForOutcome(gs[i], lines[j], cols);
      }
      CollectOnePerPair(steps, gs[i].key, props);
    }
    ConcatOnePerPair(parts, seq(|gs|, i requires 0 <= i < |gs| => gs[i].key));
  }

  /** In a successful outer loop, every (group, prop) whose column exists builds a record. */
  lemma ScreenGroupsPresent(gs: seq<Group>, lines: seq<PropLine>, cols: set<string>)
    requires NonEmptyGroups(gs) && ScreenGroups(gs, lines, cols).Ok?
    ensures forall i, j :: 0 <= i < |gs| && 0 <= j < |lines| && ColumnFor(lines[j].0) in cols ==>
      Steps(gs[i], lines, cols)[j].Ok? && Steps(gs[i], lines, cols)[j].value.Some?
  {
    ScreenGroupsMembers(gs, lines, cols);
    forall i, j | 0 <= i < |gs| && 0 <= j < |lines| {
      RecordForOutcome(gs[i], lines[j], cols);
    }
  }

  /** A successful build holds, for every player group and every requested
      prop whose column exists, the record built from that group's last
      rows, and nothing else; so there are at most #players × #props records,
      and at most one per (player, prop) when the props are distinct. */
  lemma ScreenRecords(df: Frame<Cell>, lines: seq<PropLine>)
    requires Screen(df, lines).Ok?
    ensures PlayerColumn(df.columns).Some?
    ensures
      var gs := Groups(df.rows, PlayerColumn(df.columns).value);
      var rs := Screen(df, lines).value;
      && |rs| <= |gs| * |lines|
      && (DistinctProps(lines) ==> OnePerPair(rs))
      && (forall rec :: rec in rs <==>
            exists i, j :: 0 <= i < |gs| && 0 <= j < |lines| && Steps(gs[i], lines, df.columns)[j] == Ok(Some(rec)))
      && (forall i, j :: 0 <= i < |gs| && 0 <= j < |lines| && ColumnFor(lines[j].0) in df.columns ==>
            Steps(gs[i], lines, df.columns)[j].Ok? && Steps(gs[i], lines, df.columns)[j].value.Some?)
  {
    var gs := Groups(df.rows, PlayerColumn(df.columns).value);
    ScreenGroupsCount(gs, lines, df.columns);
    ScreenGroupsMembers(gs, lines, df.columns);
    ScreenGroupsPresent(gs, lines, df.columns);
    if DistinctProps(lines) {
      ScreenGroupsOnePerPair(gs, lines, df.columns);
    }
  }

  /** Steps that all skip fold into no records. */
  lemma {:induction false} CollectSkips(steps: seq<Step>)
    requires forall j :: 0 <= j < |steps| ==> steps[j] == Ok(None)
    ensures Collect(steps) == Ok([])
  {
    if |steps| > 0 {
      var pre := steps[..|steps| - 1];
      assert forall j :: 0 <= j < |pre| ==> pre[j] == steps[j];
      CollectSkips(pre);
      assert AsRecords(steps[|steps| - 1]) == Ok([]);
      assert Collect(pre).value + [] == [];
    }
  }

  /** A prop whose mapped column is absent is skipped, not an error: when no
      requested prop has a column the build succeeds with no records. */
  lemma UnmappedPropsYieldNoRecords(df: Frame<Cell>, lines: seq<PropLine>)
    requires PlayerColumn(df.columns).Some?
    requires forall j :: 0 <= j < |lines| ==> ColumnFor(lines[j].0) !in df.columns
    ensures Screen(df, lines) == Ok([])
  {
    var gs := Groups(df.rows, PlayerColumn(df.columns).value);
    var parts := Parts(gs, lines, df.columns);
    assert forall i :: 0 <= i < |parts| ==> parts[i] == Ok([]) by {
      forall i | 0 <= i < |gs| ensures parts[i] == Ok([]) {
        GroupWithoutColumns(gs[i], lines, df.columns);
      }
    }
    ConcatContents(parts, 0);
    ScreenGroupsFailure(gs, lines, df.columns);
    var rs := Screen(df, lines).value;
    assert |rs| <= |gs| * 0;
  }

  /** A player none of whose requested props has a column yields no records. */
  lemma GroupWithoutColumns(g: Group, lines: seq<PropLine>, columns: set<string>)
    requires |g.rows| > 0
    requires forall j :: 0 <= j < |lines| ==> ColumnFor(lines[j].0) !in columns
    ensures ScreenProps(g, lines, columns) == Ok([])
  {
    var steps := Steps(g, lines, columns);
    forall j | 0 <= j < |steps| ensures steps[j] == Ok(None) {
      RecordForOutcome(g, lines[j], columns);
    }
    CollectSkips(steps);
  }
}
