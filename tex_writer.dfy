/** The report pivot of the source-code analysis. `collect_metrics` regroups
    a result set into one list of `(benchmark, stat)` pairs per metric, each
    list sorted by stat; `write_tex` lays every list out as the rows of a
    LaTeX table, one output file per metric. */
module TexWriter {
  import opened Common

  /** A `(benchmark, stat)` pair of a metric's list. */
  type Entry = (string, real)

  /** `HashMap<String, Vec<(String, f64)>>`: metric name to its list. */
  type Pivot = map<string, seq<Entry>>

  // ---------------------------------------------------------------------
  // The pushed lists
  // ---------------------------------------------------------------------

  /** The runs of a result set, benchmark after benchmark, in order. */
  function Runs(results: seq<BenchResult>): seq<RunResult>
  {
    if results == [] then []
    else Runs(results[..|results| - 1]) + results[|results| - 1].resultVec
  }

  /** Every metric name occurring in the stats of some run. */
  function MetricNames(runs: seq<RunResult>): set<string>
  {
    if runs == [] then {}
    else MetricNames(runs[..|runs| - 1]) + runs[|runs| - 1].stats.Keys
  }

  /** The pair a run contributes to metric `m`'s list, if it has that metric. */
  function Contribution(r: RunResult, m: string): seq<Entry>
  {
    if m in r.stats then [(r.benchmark, r.stats[m])] else []
  }

  /** The list of metric `m` in push order: one pair per run having `m`. */
  function Column(runs: seq<RunResult>, m: string): seq<Entry>
  {
    if runs == [] then []
    else Column(runs[..|runs| - 1], m) + Contribution(runs[|runs| - 1], m)
  }

  /** The positions of the runs that have the metric `m`. */
  function Holders(runs: seq<RunResult>, m: string): set<nat>
  {
    set i: nat | i < |runs| && m in runs[i].stats
  }

  /** Number of `(metric, stat)` pairs over all runs. */
  function TotalPairs(runs: seq<RunResult>): nat
  {
    if runs == [] then 0
    else TotalPairs(runs[..|runs| - 1]) + |runs[|runs| - 1].stats.Keys|
  }

  lemma RunsSnoc(results: seq<BenchResult>, i: nat)
    requires i < |results|
    ensures Runs(results[..i + 1]) == Runs(results[..i]) + results[i].resultVec
  {
    assert results[..i + 1][..i] == results[..i];
  }

  /** A metric name occurs in the pivot exactly when some run has it. */
  lemma {:induction false} MetricNamesExact(runs: seq<RunResult>, m: string)
    ensures m in MetricNames(runs) <==> exists i :: 0 <= i < |runs| && m in runs[i].stats
  {
    if runs != [] {
      var init := runs[..|runs| - 1];
      MetricNamesExact(init, m);
      if m in MetricNames(init) {
        var i :| 0 <= i < |init| && m in init[i].stats;
        assert runs[i] == init[i];
      }
      if m in MetricNames(runs) && m !in MetricNames(init) {
        assert m in runs[|runs| - 1].stats;
      }
      forall i | 0 <= i < |runs| - 1 && m in runs[i].stats
        ensures m in MetricNames(init)
      {
        assert init[i] == runs[i];
      }
    }
  }

  /** A metric's list holds one pair per run that has the metric. */
  lemma {:induction false} ColumnLength(runs: seq<RunResult>, m: string)
    ensures |Column(runs, m)| == |Holders(runs, m)|
  {
    if runs != [] {
      var n := |runs| - 1;
      ColumnLength(runs[..n], m);
      HoldersSnoc(runs, m);
    }
  }

  lemma HoldersSnoc(runs: seq<RunResult>, m: string)
    requires runs != []
    ensures var n := |runs| - 1;
            Holders(runs, m) == Holders(runs[..n], m) + (if m in runs[n].stats then {n} else {})
  {
  }

  /** A pair `(benchmark, stat)` is in a metric's list exactly when some run
      of that benchmark has that stat for the metric: nothing else. */
  lemma {:induction false} ColumnMembers(runs: seq<RunResult>, m: string, e: Entry)
    ensures e in Column(runs, m) <==>
            exists i :: 0 <= i < |runs| && m in runs[i].stats && e == (runs[i].benchmark, runs[i].stats[m])
  {
    if runs != [] {
      var n := |runs| - 1;
      var init, last := runs[..n], runs[n];
      ColumnMembers(init, m, e);
      assert Column(runs, m) == Column(init, m) + Contribution(last, m);
      if e in Column(init, m) {
        var i :| 0 <= i < |init| && m in init[i].stats && e == (init[i].benchmark, init[i].stats[m]);
        assert runs[i] == init[i];
      } else if e in Contribution(last, m) {
        assert m in runs[n].stats && e == (runs[n].benchmark, runs[n].stats[m]);
      }
      if exists i :: 0 <= i < |runs| && m in runs[i].stats && e == (runs[i].benchmark, runs[i].stats[m]) {
        var i :| 0 <= i < |runs| && m in runs[i].stats && e == (runs[i].benchmark, runs[i].stats[m]);
        if i < n {
          assert init[i] == runs[i];
        } else {
          assert e in Contribution(last, m);
        }
      }
    }
  }

  /** A metric no run has gets no list entries. */
  lemma {:induction false} ColumnOutside(runs: seq<RunResult>, m: string)
    requires m !in MetricNames(runs)
    ensures Column(runs, m) == []
  {
    if runs != [] {
      ColumnOutside(runs[..|runs| - 1], m);
    }
  }

  // ---------------------------------------------------------------------
  // The sort (`sort_by` on `partial_cmp` of the stats: stable, ascending)
  // ---------------------------------------------------------------------

  predicate SortedByStat(xs: seq<Entry>)
  {
    forall i, j :: 0 <= i < j < |xs| ==> xs[i].1 <= xs[j].1
  }

  /** Places `x` before the first entry whose stat is not smaller. */
  function InsertByStat(x: Entry, ys: seq<Entry>): (r: seq<Entry>)
    requires SortedByStat(ys)
    ensures SortedByStat(r)
    ensures multiset(r) == multiset(ys) + multiset{x}
  {
    if ys == [] || x.1 <= ys[0].1 then [x] + ys
    else
      var rest := InsertByStat(x, ys[1..]);
      HeadStaysFirst(ys, x, rest);
      [ys[0]] + rest
  }

  /** Inserting after the head keeps the head first and the multiset right. */
  lemma HeadStaysFirst(ys: seq<Entry>, x: Entry, rest: seq<Entry>)
    requires ys != [] && SortedByStat(ys) && ys[0].1 < x.1
    requires SortedByStat(rest) && multiset(rest) == multiset(ys[1..]) + multiset{x}
    ensures SortedByStat([ys[0]] + rest)
    ensures multiset([ys[0]] + rest) == multiset(ys) + multiset{x}
  {
    forall k | 0 <= k < |rest|
      ensures ys[0].1 <= rest[k].1
    {
      assert rest[k] in multiset(rest);
      if rest[k] != x {
        assert rest[k] in multiset(ys[1..]);
        var i :| 0 <= i < |ys[1..]| && ys[1..][i] == rest[k];
        assert ys[i + 1] == rest[k];
      }
    }
    assert ys == [ys[0]] + ys[1..];
  }

  /** The reference sort: insertion from the back, so among equal stats the
      earlier entry stays first. */
  function SortByStat(xs: seq<Entry>): (r: seq<Entry>)
    ensures SortedByStat(r)
    ensures multiset(r) == multiset(xs)
  {
    if xs == [] then []
    else
      assert xs == [xs[0]] + xs[1..];
      InsertByStat(xs[0], SortByStat(xs[1..]))
  }

  /** The entries of a list whose stat is `v`, in order. */
  function WithStat(xs: seq<Entry>, v: real): seq<Entry>
  {
    if xs == [] then []
    else (if xs[0].1 == v then [xs[0]] else []) + WithStat(xs[1..], v)
  }

  lemma {:induction false} InsertKeepsTies(x: Entry, ys: seq<Entry>, v: real)
    requires SortedByStat(ys)
    ensures WithStat(InsertByStat(x, ys), v) == (if x.1 == v then [x] else []) + WithStat(ys, v)
  {
    if ys != [] && x.1 > ys[0].1 {
      var rest := InsertByStat(x, ys[1..]);
      InsertKeepsTies(x, ys[1..], v);
      var r := [ys[0]] + rest;
      assert InsertByStat(x, ys) == r;
      assert r[1..] == rest;
      var h := if ys[0].1 == v then [ys[0]] else [];
      var o := if x.1 == v then [x] else [];
      assert WithStat(r, v) == h + WithStat(rest, v);
      assert WithStat(ys, v) == h + WithStat(ys[1..], v);
      SwapDisjoint(h, o, WithStat(ys[1..], v));
    }
  }

  lemma SwapDisjoint(h: seq<Entry>, o: seq<Entry>, w: seq<Entry>)
    requires h == [] || o == []
    ensures h + (o + w) == o + (h + w)
  {
    if h == [] {
      assert h + (o + w) == o + w && h + w == w;
    } else {
      assert o + w == w && o + (h + w) == h + w;
    }
  }

  /** Stability: the entries with equal stats keep their pushed order. */
  lemma {:induction false} SortIsStable(xs: seq<Entry>, v: real)
    ensures WithStat(SortByStat(xs), v) == WithStat(xs, v)
  {
    if xs != [] {
      SortIsStable(xs[1..], v);
      InsertKeepsTies(xs[0], SortByStat(xs[1..]), v);
    }
  }

  // ---------------------------------------------------------------------
  // collect_metrics
  // ---------------------------------------------------------------------

  /** What `collect_metrics` returns: every metric name that occurs, mapped
      to its pushed list sorted by stat. */
  function Collected(runs: seq<RunResult>): Pivot
  {
    map m | m in MetricNames(runs) :: SortByStat(Column(runs, m))
  }

  /** The map holds, for every metric seen in `runs`, its pushed list. */
  ghost predicate Pushed(p: Pivot, runs: seq<RunResult>)
  {
    && p.Keys == MetricNames(runs)
    && forall m :: m in p ==> p[m] == Column(runs, m)
  }

  /** `collect_metrics`: the three nested `for_each` loops push every pair,
      then every list is sorted in place. */
  method CollectMetrics(data: seq<BenchResult>) returns (collected: Pivot)
    ensures collected == Collected(Runs(data))
  {
    var pushed := PushAll(data);
    collected := SortLists(pushed);
    assert collected.Keys == Collected(Runs(data)).Keys;
  }

  /** `data.results.iter().for_each(...)` */
  method PushAll(data: seq<BenchResult>) returns (p: Pivot)
    ensures Pushed(p, Runs(data))
  {
    p := map[];
    ghost var runs: seq<RunResult> := [];
    for i := 0 to |data|
      invariant runs == Runs(data[..i])
      invariant Pushed(p, runs)
    {
      p := PushRuns(p, runs, data[i].resultVec);
      RunsSnoc(data, i);
      runs := runs + data[i].resultVec;
    }
    assert data[..|data|] == data;
  }

  /** `result.result_vec.iter().for_each(...)` */
  method PushRuns(p: Pivot, ghost before: seq<RunResult>, rv: seq<RunResult>) returns (q: Pivot)
    requires Pushed(p, before)
    ensures Pushed(q, before + rv)
  {
    q := p;
    assert before + rv[..0] == before;
    for j := 0 to |rv|
      invariant Pushed(q, before + rv[..j])
    {
      ghost var prev := before + rv[..j];
      q := PushRun(q, prev, rv[j]);
      assert prev + [rv[j]] == before + rv[..j + 1];
    }
    assert rv[..|rv|] == rv;
  }

  /** `collected_data.iter_mut().for_each(|(_, d)| d.sort_by(...))`: the
      iteration order over the metrics does not matter. */
  method SortLists(p: Pivot) returns (q: Pivot)
    ensures q.Keys == p.Keys
    ensures forall m :: m in q ==> q[m] == SortByStat(p[m])
  {
    q := p;
    var todo := p.Keys;
    while todo != {}
      invariant todo <= q.Keys == p.Keys
      invariant forall m :: m in q ==> q[m] == if m in todo then p[m] else SortByStat(p[m])
      decreases |todo|
    {
      var m :| m in todo;
      q := q[m := SortByStat(q[m])];
      todo := todo - {m};
    }
  }

  /** `r.stats.iter().for_each(...)`: for every metric of one run, create its
      list when missing and push the run's pair onto it. */
  method PushRun(p: Pivot, ghost before: seq<RunResult>, r: RunResult) returns (q: Pivot)
    requires Pushed(p, before)
    ensures Pushed(q, before + [r])
  {
    q := p;
    var todo := r.stats.Keys;
    while todo != {}
      invariant todo <= r.stats.Keys
      invariant q.Keys == p.Keys + (r.stats.Keys - todo)
      invariant PartlyPushed(q, before, r, todo)
      decreases |todo|
    {
      var m :| m in todo;
      q := PushMetric(q, before, r, todo, m);
      KeysStep(p.Keys, r.stats.Keys, todo, m);
      todo := todo - {m};
    }
    PushRunDone(p, q, before, r, todo);
  }

  /** The closure body of `PushRun` for metric `m`: create the list when
      missing, then push the run's pair. */
  method PushMetric(q: Pivot, ghost before: seq<RunResult>, r: RunResult, ghost todo: set<string>, m: string)
    returns (q': Pivot)
    requires m in todo && todo <= r.stats.Keys && MetricNames(before) <= q.Keys
    requires PartlyPushed(q, before, r, todo)
    ensures q'.Keys == q.Keys + {m}
    ensures PartlyPushed(q', before, r, todo - {m})
  {
    q' := q;
    if m !in q' {
      ColumnOutside(before, m);
      q' := q'[m := []];
    }
    PushStep(q', before, r, todo, m);
    q' := q'[m := q'[m] + [(r.benchmark, r.stats[m])]];
  }

  /** Inside `PushRun`: every list holds the earlier runs' pairs, and the
      run's own pair once its metric is no longer to do. */
  ghost predicate PartlyPushed(q: Pivot, before: seq<RunResult>, r: RunResult, todo: set<string>)
  {
    forall k :: k in q ==> q[k] == Column(before, k) + (if k in todo then [] else Contribution(r, k))
  }

  /** One iteration of `PushRun`: pushing the run's pair for `m` moves `m`
      out of the metrics still to do. */
  lemma PushStep(q: Pivot, before: seq<RunResult>, r: RunResult, todo: set<string>, m: string)
    requires m in todo && todo <= r.stats.Keys && m in q
    requires forall k :: k in q ==> q[k] == Column(before, k) + (if k in todo then [] else Contribution(r, k))
    ensures var q' := q[m := q[m] + [(r.benchmark, r.stats[m])]];
            forall k :: k in q' ==> q'[k] == Column(before, k) + (if k in todo - {m} then [] else Contribution(r, k))
  {
  }

  /** The key set of `PushRun` gains `m` as `m` leaves the metrics to do. */
  lemma KeysStep(a: set<string>, b: set<string>, todo: set<string>, m: string)
    requires m in todo && todo <= b
    ensures a + (b - todo) + {m} == a + (b - (todo - {m}))
  {
  }

  /** After the loop of `PushRun` every metric of the run is pushed. */
  lemma PushRunDone(p: Pivot, q: Pivot, before: seq<RunResult>, r: RunResult, todo: set<string>)
    requires Pushed(p, before) && todo == {}
    requires q.Keys == p.Keys + (r.stats.Keys - todo) && PartlyPushed(q, before, r, todo)
    ensures Pushed(q, before + [r])
  {
    ghost var after := before + [r];
    assert after[..|after| - 1] == before;
  }

  /** The keys of the pivot are exactly the metric names of the results. */
  lemma CollectedKeys(data: seq<BenchResult>, m: string)
    ensures m in Collected(Runs(data)) <==>
            exists i :: 0 <= i < |Runs(data)| && m in Runs(data)[i].stats
  {
    MetricNamesExact(Runs(data), m);
  }

  /** Each metric's list holds one pair per run having the metric and
      nothing else. */
  lemma CollectedEntries(data: seq<BenchResult>, m: string, e: Entry)
    requires m in Collected(Runs(data))
    ensures |Collected(Runs(data))[m]| == |Holders(Runs(data), m)|
    ensures e in Collected(Runs(data))[m] <==>
            exists i :: 0 <= i < |Runs(data)| && m in Runs(data)[i].stats && e == (Runs(data)[i].benchmark, Runs(data)[i].stats[m])
  {
    var runs := Runs(data);
    var xs := Collected(runs)[m];
    ColumnLength(runs, m);
    ColumnMembers(runs, m, e);
    SortLength(Column(runs, m));
    assert e in xs <==> e in multiset(xs);
  }

  /** Each metric's list is sorted by stat, is a permutation of the pushed
      list, and keeps the pushed order among equal stats. */
  lemma CollectedSorted(data: seq<BenchResult>, m: string, v: real)
    requires m in Collected(Runs(data))
    ensures SortedByStat(Collected(Runs(data))[m])
    ensures multiset(Collected(Runs(data))[m]) == multiset(Column(Runs(data), m))
    ensures WithStat(Collected(Runs(data))[m], v) == WithStat(Column(Runs(data), m), v)
  {
    SortIsStable(Column(Runs(data), m), v);
  }

  // ---------------------------------------------------------------------
  // Total length
  // ---------------------------------------------------------------------

  ghost function Pick(p: Pivot): string
    requires p.Keys != {}
  {
    var m :| m in p.Keys; m
  }

  /** The total length of all lists of a pivot. */
  ghost function SumLengths(p: Pivot): nat
    decreases |p.Keys|
  {
    if p.Keys == {} then 0
    else
      var m := Pick(p);
      assert (p - {m}).Keys < p.Keys;
      |p[m]| + SumLengths(p - {m})
  }

  /** The total does not depend on which list is taken first. */
  lemma {:induction false} SumLengthsAt(p: Pivot, m: string)
    requires m in p
    ensures SumLengths(p) == |p[m]| + SumLengths(p - {m})
    decreases |p.Keys|
  {
    var k := Pick(p);
    if k != m {
      assert (p - {k}).Keys < p.Keys && (p - {m}).Keys < p.Keys;
      assert SumLengths(p) == |p[k]| + SumLengths(p - {k});
      SumLengthsAt(p - {k}, m);
      SumLengthsAt(p - {m}, k);
      assert (p - {k})[m] == p[m] && (p - {m})[k] == p[k];
      RemoveBoth(p, k, m);
    }
  }

  lemma RemoveBoth(p: Pivot, k: string, m: string)
    ensures p - {k} - {m} == p - {m} - {k}
  {
  }

  /** Growing one entry on every list named in `grown` (creating the
      missing ones) grows the total by the number of names in `grown`. */
  lemma {:induction false} SumLengthsGrow(p: Pivot, q: Pivot, grown: set<string>)
    requires q.Keys == p.Keys + grown
    requires forall m :: m in q ==> |q[m]| == (if m in p then |p[m]| else 0) + (if m in grown then 1 else 0)
    ensures SumLengths(q) == SumLengths(p) + |grown|
    decreases |q.Keys|
  {
    if q.Keys != {} {
      var m := Pick(q);
      var p' := if m in p then p - {m} else p;
      GrowRest(p, q, grown, m);
      SumLengthsGrow(p', q - {m}, grown - {m});
      if m in p {
        SumLengthsAt(p, m);
      }
      CardRemove(grown, m);
    }
  }

  /** Removing one list from both sides keeps the growth relation. */
  lemma GrowRest(p: Pivot, q: Pivot, grown: set<string>, m: string)
    requires q.Keys == p.Keys + grown && m in q
    requires forall k :: k in q ==> |q[k]| == (if k in p then |p[k]| else 0) + (if k in grown then 1 else 0)
    ensures var p' := if m in p then p - {m} else p;
            && (q - {m}).Keys == p'.Keys + (grown - {m})
            && (forall k :: k in q - {m} ==> |(q - {m})[k]| == (if k in p' then |p'[k]| else 0) + (if k in grown - {m} then 1 else 0))
            && |(q - {m}).Keys| < |q.Keys|
  {
    var p' := if m in p then p - {m} else p;
    GrowKeys(p, q, grown, m, p');
    GrowLengths(p, q, grown, m, p');
    Smaller(q, m);
  }

  lemma GrowKeys(p: Pivot, q: Pivot, grown: set<string>, m: string, p': Pivot)
    requires q.Keys == p.Keys + grown && p' == if m in p then p - {m} else p
    ensures (q - {m}).Keys == p'.Keys + (grown - {m})
  {
    assert (q - {m}).Keys == q.Keys - {m};
    assert p'.Keys == p.Keys - {m};
  }

  lemma GrowLengths(p: Pivot, q: Pivot, grown: set<string>, m: string, p': Pivot)
    requires forall k :: k in q ==> |q[k]| == (if k in p then |p[k]| else 0) + (if k in grown then 1 else 0)
    requires p' == if m in p then p - {m} else p
    ensures forall k :: k in q - {m} ==> |(q - {m})[k]| == (if k in p' then |p'[k]| else 0) + (if k in grown - {m} then 1 else 0)
  {
    forall k | k in q - {m}
      ensures |(q - {m})[k]| == (if k in p' then |p'[k]| else 0) + (if k in grown - {m} then 1 else 0)
    {
      assert k in q && k != m;
    }
  }

  lemma Smaller(q: Pivot, m: string)
    requires m in q
    ensures |(q - {m}).Keys| < |q.Keys|
  {
    assert (q - {m}).Keys < q.Keys;
  }

  lemma CardRemove(s: set<string>, x: string)
    ensures |s| == |s - {x}| + (if x in s then 1 else 0)
  {
    if x in s {
      assert s == (s - {x}) + {x};
    } else {
      assert s - {x} == s;
    }
  }

  /** The lists hold, together, one entry per `(metric, stat)` pair of the
      results. */
  lemma {:induction false} CollectedTotal(runs: seq<RunResult>)
    ensures SumLengths(Collected(runs)) == TotalPairs(runs)
  {
    if runs != [] {
      var init, r := runs[..|runs| - 1], runs[|runs| - 1];
      CollectedTotal(init);
      var p, q := Collected(init), Collected(runs);
      forall m | m in q
        ensures |q[m]| == (if m in p then |p[m]| else 0) + (if m in r.stats.Keys then 1 else 0)
      {
        if m !in MetricNames(init) {
          ColumnOutside(init, m);
        }
        SortLength(Column(runs, m));
        SortLength(Column(init, m));
      }
      SumLengthsGrow(p, q, r.stats.Keys);
    }
  }

  lemma SortLength(xs: seq<Entry>)
    ensures |SortByStat(xs)| == |xs|
  {
    assert |multiset(SortByStat(xs))| == |multiset(xs)|;
  }

  // ---------------------------------------------------------------------
  // write_tex: the table rows
  // ---------------------------------------------------------------------

  /** `format!("\\texttt{benchmark} & {stat}")`: the name is spliced in
      right after `\texttt`, and `show` stands for the `Display` of `f64`. */
  function PairText(e: Entry, show: real -> string): string
  {
    "\\texttt" + e.0 + " & " + show(e.1)
  }

  /** What the counter appends after entry `k` when it wraps after `j`
      increments: a cell separator, or a row break once `j + 1` entries are
      on the current row. */
  function RowEnd(k: nat, j: nat): string
  {
    if k % (j + 1) < j then "&" else "\\\\\n"
  }

  /** The text of entries `b .. b + len` of a metric's list. */
  function Segment(data: seq<Entry>, show: real -> string, j: nat, b: nat, len: nat): string
    requires b + len <= |data|
  {
    if len == 0 then ""
    else Segment(data, show, j, b, len - 1) + Piece(data, show, j, b + len - 1)
  }

  /** Entry `k` followed by what the counter appends after it. */
  function Piece(data: seq<Entry>, show: real -> string, j: nat, k: nat): string
    requires k < |data|
  {
    PairText(data[k], show) + RowEnd(k, j)
  }

  /** The whole body of a metric's table. */
  function Layout(data: seq<Entry>, show: real -> string, j: nat): string
  {
    Segment(data, show, j, 0, |data|)
  }

  /** The `map` closure with its captured counter `i`, started at 0 for
      every metric; `collect::<String>()` concatenates the pieces. */
  method TableBody(data: seq<Entry>, show: real -> string, j: nat) returns (s: string)
    ensures s == Layout(data, show, j)
  {
    s := "";
    var i := 0;
    for k := 0 to |data|
      invariant s == Segment(data, show, j, 0, k)
      invariant i == k % (j + 1)
    {
      ModStep(k, j + 1);
      var piece := PairText(data[k], show);
      if i < j {
        piece := piece + "&";
        i := i + 1;
      } else {
        piece := piece + "\\\\\n";
        i := 0;
      }
      s := s + piece;
    }
  }

  /** Entry `k` is followed by a cell separator when `k mod (j + 1) < j`,
      and by a row break otherwise; with `j = 3`, as in the source, a row
      break follows entries 3, 7, 11, and so on. */
  lemma RowEnds(data: seq<Entry>, show: real -> string, j: nat, k: nat)
    requires k < |data|
    ensures Segment(data, show, j, 0, k + 1) == Segment(data, show, j, 0, k) + PairText(data[k], show) +
              (if k % (j + 1) < j then "&" else "\\\\\n")
    ensures j == 3 ==> (RowEnd(k, j) == "\\\\\n" <==> k % 4 == 3)
  {
  }

  /** The text of a contiguous run of entries splits at any point. */
  lemma {:induction false} SegmentSplit(data: seq<Entry>, show: real -> string, j: nat, b: nat, l1: nat, l2: nat)
    requires b + l1 + l2 <= |data|
    ensures Segment(data, show, j, b, l1 + l2) == Segment(data, show, j, b, l1) + Segment(data, show, j, b + l1, l2)
    decreases l2
  {
    if l2 > 0 {
      SegmentSplit(data, show, j, b, l1, l2 - 1);
      var x, y, z := Segment(data, show, j, b, l1), Segment(data, show, j, b + l1, l2 - 1), Piece(data, show, j, b + l1 + l2 - 1);
      assert Segment(data, show, j, b, l1 + l2) == Segment(data, show, j, b, l1 + l2 - 1) + z;
      assert Segment(data, show, j, b + l1, l2) == y + z;
      ConcatAssoc(x, y, z);
    } else {
      assert Segment(data, show, j, b + l1, l2) == "";
      assert l1 + l2 == l1;
    }
  }

  lemma ConcatAssoc(x: string, y: string, z: string)
    ensures (x + y) + z == x + (y + z)
  {
  }

  // ---------------------------------------------------------------------
  // Cells per row
  // ---------------------------------------------------------------------

  function Count(s: string, c: char): nat
  {
    if s == [] then 0 else (if s[0] == c then 1 else 0) + Count(s[1..], c)
  }

  lemma {:induction false} CountAppend(a: string, b: string, c: char)
    ensures Count(a + b, c) == Count(a, c) + Count(b, c)
  {
    if a != [] {
      assert (a + b)[0] == a[0];
      assert (a + b)[1..] == a[1..] + b;
      CountAppend(a[1..], b, c);
    } else {
      assert a + b == b;
    }
  }

  /** The column specification of the tabular, `{ll|ll|ll}`. */
  const ColumnSpec := "ll|ll|ll"

  /** Number of columns a tabular specification declares. */
  function Columns(spec: string): nat
  {
    Count(spec, 'l') + Count(spec, 'c') + Count(spec, 'r')
  }

  /** Names and formatted stats that contain no cell separator and no
      newline of their own. */
  predicate Plain(data: seq<Entry>, show: real -> string)
  {
    forall k :: 0 <= k < |data| ==> PlainEntry(data[k], show)
  }

  predicate PlainEntry(e: Entry, show: real -> string)
  {
    Count(e.0, '&') == 0 && Count(e.0, '\n') == 0 && Count(show(e.1), '&') == 0 && Count(show(e.1), '\n') == 0
  }

  lemma PairCounts(e: Entry, show: real -> string, c: char)
    requires PlainEntry(e, show) && (c == '&' || c == '\n')
    ensures Count(PairText(e, show), c) == if c == '&' then 1 else 0
  {
    var a := "\\texttt" + e.0;
    assert Count("\\texttt", c) == 0 && Count(" & ", c) == (if c == '&' then 1 else 0);
    CountAppend("\\texttt", e.0, c);
    CountAppend(a, " & ", c);
    CountAppend(a + " & ", show(e.1), c);
  }

  /** A piece holds the `&` inside its pair, and then either one more `&`
      or the row break's newline. */
  lemma PieceCounts(data: seq<Entry>, show: real -> string, j: nat, k: nat, c: char)
    requires Plain(data, show) && k < |data| && (c == '&' || c == '\n')
    ensures Count(Piece(data, show, j, k), c) ==
              if c == '&' then (if k % (j + 1) < j then 2 else 1) else (if k % (j + 1) < j then 0 else 1)
  {
    assert PlainEntry(data[k], show);
    PairCounts(data[k], show, c);
    assert Count("&", c) == (if c == '&' then 1 else 0);
    assert Count("\\\\\n", c) == (if c == '&' then 0 else 1);
    CountAppend(PairText(data[k], show), RowEnd(k, j), c);
  }

  lemma ModOffset(b: nat, i: nat, n: nat)
    requires n > 0 && b % n == 0 && i < n
    ensures (b + i) % n == i
  {
    var q, x := b / n, b + i;
    assert b == n * q;
    assert x == n * (x / n) + x % n;
    assert n * (q - x / n) == x % n - i;
    MulZero(n, q - x / n);
  }

  /** The counter's step: `i < j` moves on, `i == j` wraps to 0. */
  lemma ModStep(k: nat, n: nat)
    requires n > 0
    ensures (k + 1) % n == if k % n < n - 1 then k % n + 1 else 0
  {
    var q, x := k / n, k + 1;
    assert k == n * q + k % n;
    assert x == n * (x / n) + x % n;
    if k % n < n - 1 {
      assert n * (q - x / n) == x % n - (k % n + 1);
      MulZero(n, q - x / n);
    } else {
      assert n * (q + 1 - x / n) == x % n;
      MulZero(n, q + 1 - x / n);
    }
  }

  lemma MulZero(n: int, d: int)
    requires n > 0 && -n < n * d < n
    ensures d == 0
  {
  }

  /** The first `len` entries of a row starting at `b`: one `&` inside each
      pair, one `&` after each pair but the row's last, and a single newline
      once the row is complete. */
  lemma {:induction false} RowPrefix(data: seq<Entry>, show: real -> string, j: nat, b: nat, len: nat)
    requires Plain(data, show) && b % (j + 1) == 0 && len <= j + 1 && b + len <= |data|
    ensures Count(Segment(data, show, j, b, len), '&') == 2 * len - (if len == j + 1 then 1 else 0)
    ensures Count(Segment(data, show, j, b, len), '\n') == (if len == j + 1 then 1 else 0)
  {
    if len > 0 {
      RowPrefix(data, show, j, b, len - 1);
      var k := b + len - 1;
      ModOffset(b, len - 1, j + 1);
      PieceCounts(data, show, j, k, '&');
      PieceCounts(data, show, j, k, '\n');
      CountAppend(Segment(data, show, j, b, len - 1), Piece(data, show, j, k), '&');
      CountAppend(Segment(data, show, j, b, len - 1), Piece(data, show, j, k), '\n');
    }
  }

  /** A row of the body, the entries `b .. b + j + 1` with `b` a multiple of
      `j + 1`: it ends with its only newline and holds `2 * (j + 1)` cells. */
  lemma RowShape(data: seq<Entry>, show: real -> string, j: nat, b: nat)
    requires Plain(data, show) && b % (j + 1) == 0 && b + j + 1 <= |data|
    ensures var row := Segment(data, show, j, b, j + 1);
            && row[|row| - 1] == '\n'
            && Count(row, '\n') == 1
            && Count(row, '&') + 1 == 2 * (j + 1)
  {
    RowPrefix(data, show, j, b, j + 1);
    ModOffset(b, j, j + 1);
  }

  /** As written (`j = 3`), every full row holds 8 cells, but the tabular
      declares 6 columns. */
  lemma AsWrittenRowTooWide(data: seq<Entry>, show: real -> string, b: nat)
    requires Plain(data, show) && b % 4 == 0 && b + 4 <= |data|
    ensures Count(Segment(data, show, 3, b, 4), '&') + 1 == 8
    ensures Columns(ColumnSpec) == 6
  {
    RowShape(data, show, 3, b);
  }

  /** With the counter wrapping after 2 (three pairs a row), every full row
      fills exactly the declared columns. */
  lemma CorrectedRowFits(data: seq<Entry>, show: real -> string, b: nat)
    requires Plain(data, show) && b % 3 == 0 && b + 3 <= |data|
    ensures Count(Segment(data, show, PairsPerRow - 1, b, PairsPerRow), '&') + 1 == Columns(ColumnSpec)
  {
    RowShape(data, show, PairsPerRow - 1, b);
  }

  /** Pairs per table row that the column specification has room for. */
  const PairsPerRow := 3

  // ---------------------------------------------------------------------
  // write_tex: the files
  // ---------------------------------------------------------------------

  /** `format!("src-code-analyze-results-{metric}.json")` */
  function TexFileName(metric: string): string
  {
    "src-code-analyze-results-" + metric + ".json"
  }

  /** Different metrics never share an output file. */
  lemma TexFileNameInjective(a: string, b: string)
    ensures TexFileName(a) == TexFileName(b) ==> a == b
  {
    var pre := "src-code-analyze-results-";
    if TexFileName(a) == TexFileName(b) {
      assert |a| == |b|;
      assert a == TexFileName(a)[|pre|..|pre| + |a|];
      assert b == TexFileName(b)[|pre|..|pre| + |b|];
    }
  }

  /** The loop over the pivot: one file per metric. `j` is the value the
      counter wraps after. */
  method WriteTables(p: Pivot, show: real -> string, j: nat) returns (files: map<string, string>)
    ensures files.Keys == (set m | m in p :: TexFileName(m))
    ensures forall m :: m in p ==> files[TexFileName(m)] == Layout(p[m], show, j)
  {
    files := map[];
    var todo := p.Keys;
    while todo != {}
      invariant todo <= p.Keys
      invariant files.Keys == (set m | m in p && m !in todo :: TexFileName(m))
      invariant forall m :: m in p && m !in todo ==> files[TexFileName(m)] == Layout(p[m], show, j)
      decreases |todo|
    {
      var m :| m in todo;
      var body := TableBody(p[m], show, j);
      forall m' | m' in p && m' !in todo
        ensures TexFileName(m') != TexFileName(m)
      {
        TexFileNameInjective(m', m);
      }
      files := files[TexFileName(m) := body];
      todo := todo - {m};
    }
  }

  /** `write_tex` as written: the counter wraps after `j = 3`, four pairs
      a row. */
  method WriteTexAsWritten(data: seq<BenchResult>, show: real -> string) returns (files: map<string, string>)
    ensures files.Keys == (set m | m in MetricNames(Runs(data)) :: TexFileName(m))
    ensures forall m :: m in MetricNames(Runs(data)) ==>
              files[TexFileName(m)] == Layout(Collected(Runs(data))[m], show, 3)
  {
    var datas := CollectMetrics(data);
    files := WriteTables(datas, show, 3);
  }

  /** `write_tex` with rows of `PairsPerRow` pairs, as the tabular's column
      specification calls for. */
  method WriteTex(data: seq<BenchResult>, show: real -> string) returns (files: map<string, string>)
    ensures files.Keys == (set m | m in MetricNames(Runs(data)) :: TexFileName(m))
    ensures forall m :: m in MetricNames(Runs(data)) ==>
              files[TexFileName(m)] == Layout(Collected(Runs(data))[m], show, PairsPerRow - 1)
  {
    var datas := CollectMetrics(data);
    files := WriteTables(datas, show, PairsPerRow - 1);
  }
}
