/** Shared vocabulary of the screener code: optional (NaN-able) cells, error
    results, a row-oriented data frame, pandas-style head/tail windows and the
    NaN-skipping mean that pandas `Series.mean()` computes. */
module Table {

  /** A cell that may be missing: `None` stands for a NaN cell. */
  datatype Option<T> = None | Some(value: T)

  /** The outcome of an operation that may raise: `Err` carries what the raise reports. */
  datatype Result<T, E> = Ok(value: T) | Err(error: E)

  /** A data frame: its column labels and its rows in index order. Each row
      maps column labels to that row's cells. */
  datatype Frame<C> = Frame(columns: set<string>, rows: seq<map<string, C>>)

  /** The cell of `row` under `name`; a row that holds no such name reads as `absent`. */
  function Lookup<C>(row: map<string, C>, name: string, absent: C): C
  {
    if name in row then row[name] else absent
  }

  /** The column `name` of `rows`, in row order (pandas `df[name]`). */
  function ColumnOf<C>(rows: seq<map<string, C>>, name: string, absent: C): (col: seq<C>)
    ensures |col| == |rows|
    ensures forall i :: 0 <= i < |rows| ==> col[i] == Lookup(rows[i], name, absent)
  {
    seq(|rows|, i requires 0 <= i < |rows| => Lookup(rows[i], name, absent))
  }

  function Min(a: int, b: int): int
  {
    if a <= b then a else b
  }

  /** pandas `head(n)`: the first min(n, |s|) elements, in order. */
  function Head<T>(s: seq<T>, n: nat): (h: seq<T>)
    ensures |h| == Min(n, |s|)
    ensures h == s[..|h|]
  {
    s[..Min(n, |s|)]
  }

  /** pandas `tail(n)`: the last min(n, |s|) elements, in order. */
  function Tail<T>(s: seq<T>, n: nat): (t: seq<T>)
    ensures |t| == Min(n, |s|)
    ensures t == s[|s| - |t|..]
  {
    s[|s| - Min(n, |s|)..]
  }

  function Sum(xs: seq<real>): real
  {
    if |xs| == 0 then 0.0 else Sum(xs[..|xs| - 1]) + xs[|xs| - 1]
  }

  function Mean(xs: seq<real>): real
    requires |xs| > 0
  {
    Sum(xs) / (|xs| as real)
  }

  /** The smallest element of a non-empty sequence. */
  function Minimum(xs: seq<real>): (m: real)
    requires |xs| > 0
    ensures m in xs
    ensures forall i :: 0 <= i < |xs| ==> m <= xs[i]
  {
    if |xs| == 1 then xs[0]
    else
      var m' := Minimum(xs[..|xs| - 1]);
      if xs[|xs| - 1] < m' then xs[|xs| - 1] else m'
  }

  /** The largest element of a non-empty sequence. */
  function Maximum(xs: seq<real>): (m: real)
    requires |xs| > 0
    ensures m in xs
    ensures forall i :: 0 <= i < |xs| ==> xs[i] <= m
  {
    if |xs| == 1 then xs[0]
    else
      var m' := Maximum(xs[..|xs| - 1]);
      if xs[|xs| - 1] > m' then xs[|xs| - 1] else m'
  }

  /** `ps` lists positions below `n` in strictly increasing order. */
  predicate Increasing(ps: seq<nat>, n: nat)
  {
    && (forall k :: 0 <= k < |ps| ==> ps[k] < n)
    && (forall k, l :: 0 <= k < l < |ps| ==> ps[k] < ps[l])
  }

  /** The positions of `s` whose element satisfies `keep`, in increasing
      order: what a boolean mask over a series selects. */
  function Positions<T>(s: seq<T>, keep: T -> bool): (ps: seq<nat>)
    ensures Increasing(ps, |s|)
    ensures forall j :: 0 <= j < |s| ==> (keep(s[j]) <==> j in ps)
  {
    if |s| == 0 then []
    else
      var prefix := s[..|s| - 1];
      assert forall j :: 0 <= j < |prefix| ==> prefix[j] == s[j];
      Positions(prefix, keep) + (if keep(s[|s| - 1]) then [|s| - 1] else [])
  }

  predicate IsPresent(c: Option<real>)
  {
    c.Some?
  }

  /** The non-missing cells, in order: what a NaN-skipping aggregate sees. */
  function Present(cells: seq<Option<real>>): (xs: seq<real>)
    ensures |xs| <= |cells|
    ensures forall x :: x in xs <==> Some(x) in cells
    ensures |xs| == 0 <==> forall i :: 0 <= i < |cells| ==> cells[i].None?
  {
    if |cells| == 0 then []
    else
      var last := cells[|cells| - 1];
      assert cells == cells[..|cells| - 1] + [last];
      Present(cells[..|cells| - 1]) + (if last.Some? then [last.value] else [])
  }

  /** Element k of `Present(cells)` is the value of the k-th present cell:
      the present values keep their order and their repetitions. */
  lemma {:induction false} PresentSelects(cells: seq<Option<real>>)
    ensures var xs, ps := Present(cells), Positions(cells, IsPresent);
      |xs| == |ps| && forall k :: 0 <= k < |xs| ==> cells[ps[k]] == Some(xs[k])
  {
    if |cells| > 0 {
      var n := |cells| - 1;
      var prefix, last := cells[..n], cells[n];
      PresentSelects(prefix);
      var xs0, ps0 := Present(prefix), Positions(prefix, IsPresent);
      var xs, ps := Present(cells), Positions(cells, IsPresent);
      assert xs == xs0 + (if last.Some? then [last.value] else []);
      assert ps == ps0 + (if IsPresent(last) then [n] else []);
      forall k | 0 <= k < |xs0|
        ensures cells[ps[k]] == Some(xs[k])
      {
        assert ps[k] == ps0[k] < n;
        assert cells[ps0[k]] == prefix[ps0[k]];
      }
    }
  }

  /** pandas `Series.mean()`: the mean of the non-missing cells; NaN when
      every cell is missing (an empty series included). */
  function MeanSkipMissing(cells: seq<Option<real>>): (m: Option<real>)
    ensures m.None? <==> forall i :: 0 <= i < |cells| ==> cells[i].None?
    ensures m.Some? ==> |Present(cells)| > 0 && m.value == Mean(Present(cells))
  {
    var xs := Present(cells);
    if |xs| == 0 then
      None
    else
      assert Some(xs[0]) in cells;
      Some(Mean(xs))
  }

  /** Every element between `lo` and `hi` bounds the sum by n·lo and n·hi. */
  lemma {:induction false} SumWithin(xs: seq<real>, lo: real, hi: real)
    requires forall i :: 0 <= i < |xs| ==> lo <= xs[i] <= hi
    ensures Bounded(Sum(xs), |xs| as real, lo, hi)
  {
    if |xs| > 0 {
      var n := |xs| as real;
      SumWithin(xs[..|xs| - 1], lo, hi);
      assert (n - 1.0) * lo + lo == n * lo;
      assert (n - 1.0) * hi + hi == n * hi;
    }
  }

  /** `n·lo <= s <= n·hi`. */
  predicate Bounded(s: real, n: real, lo: real, hi: real)
  {
    n * lo <= s <= n * hi
  }

  /** A mean lies between the least and the greatest value it averages. */
  lemma MeanWithinRange(xs: seq<real>)
    requires |xs| > 0
    ensures Minimum(xs) <= Mean(xs) <= Maximum(xs)
  {
    var lo, hi := Minimum(xs), Maximum(xs);
    SumWithin(xs, lo, hi);
    QuotientWithin(Sum(xs), |xs| as real, lo, hi);
  }

  lemma QuotientWithin(s: real, n: real, lo: real, hi: real)
    requires n > 0.0 && Bounded(s, n, lo, hi)
    ensures lo <= s / n <= hi
  {
    assert s / n - lo == (s - n * lo) / n;
    assert hi - s / n == (n * hi - s) / n;
  }

  /** The NaN-skipping mean lies between the least and the greatest present value. */
  lemma MeanSkipMissingWithinRange(cells: seq<Option<real>>)
    requires MeanSkipMissing(cells).Some?
    ensures Minimum(Present(cells)) <= MeanSkipMissing(cells).value <= Maximum(Present(cells))
  {
    MeanWithinRange(Present(cells));
  }

  /** Dividing by a positive number keeps the order. */
  lemma QuotientMonotone(a: real, b: real, n: real)
    requires n > 0.0 && a <= b
    ensures a / n <= b / n
  {
    assert (b / n - a / n) * n == b - a;
  }
}
