/**
 The rollup behind the group monitoring page (controller/group_monitoring.go). Stored rows are put into
 display buckets per source group and model, buckets are added up to model totals and model totals to card
 totals, and a monitor may cover what another one covers. The maps and nested loops of
 `buildGroupMonitoringGroups` are proved to give the sums one would take directly over the rows, exactly when
 the series starts on the display grid and a monitor names no source twice. Counters are unbounded.
 */
module Monitoring {
  import opened Basics
  import opened Text

  datatype Counters = Counters(requests: int, successes: int, latencyMs: int, ttftMs: int, ttftCount: int,
                               outputTokens: int, generationMs: int)
  {
    function Plus(other: Counters): Counters {
      Counters(requests + other.requests, successes + other.successes, latencyMs + other.latencyMs,
               ttftMs + other.ttftMs, ttftCount + other.ttftCount, outputTokens + other.outputTokens,
               generationMs + other.generationMs)
    }
  }

  const ZERO := Counters(0, 0, 0, 0, 0, 0, 0)

  // The seven counters by name, so that sums can be reasoned about one number at a time.
  datatype Metric = Requests | Successes | LatencyMs | TtftMs | TtftCount | OutputTokens | GenerationMs

  function Of(c: Counters, m: Metric): int {
    match m
    case Requests => c.requests
    case Successes => c.successes
    case LatencyMs => c.latencyMs
    case TtftMs => c.ttftMs
    case TtftCount => c.ttftCount
    case OutputTokens => c.outputTokens
    case GenerationMs => c.generationMs
  }

  datatype Row = Row(group: string, model: string, ts: int, counters: Counters)

  datatype Monitor = Monitor(sources: seq<string>, models: seq<string>)

  // The display grid

  type Width = w: int | w > 0 witness 1

  // Go's remainder takes the sign of the dividend.
  function GoMod(a: int, b: int): int
    requires b > 0
  {
    if a >= 0 then a % b else -(-a % b)
  }

  // The display bucket of a timestamp.
  function Display(ts: int, width: Width): int
  {
    ts - GoMod(ts, width)
  }

  predicate OnGrid(ts: int, width: Width)
  {
    ts % width == 0
  }

  lemma Multiple(q: int, width: Width)
    ensures OnGrid(q * width, width)
  {
    var m := q * width;
    assert m == width * (m / width) + m % width;
    var k := q - m / width;
    assert k * width == m % width;
    Whole(k, width);
  }

  lemma DisplayOnGrid(ts: int, width: Width)
    ensures OnGrid(Display(ts, width), width)
    ensures ts >= 0 ==> Display(ts, width) <= ts < Display(ts, width) + width
  {
    if ts >= 0 {
      assert ts == width * (ts / width) + ts % width;
      Multiple(ts / width, width);
    } else {
      assert -ts == width * (-ts / width) + (-ts) % width;
      Multiple(-(-ts / width), width);
      assert Display(ts, width) == -(-ts / width) * width;
    }
  }

  // Two grid points less than a width apart are one.
  lemma GridGap(a: int, b: int, width: Width)
    requires OnGrid(a, width) && OnGrid(b, width)
    ensures a <= b < a + width ==> a == b
    ensures OnGrid(a + width, width)
  {
    var p, q := a / width, b / width;
    assert a == width * p && b == width * q;
    Multiple(p + 1, width);
    assert (p + 1) * width == a + width;
    assert (q - p) * width == b - a;
    Whole(q - p, width);
  }

  // A timestamp is displayed inside a window with ends on the grid exactly when it is inside it.
  lemma DisplayInWindow(ts: int, from: int, until: int, width: Width)
    requires ts >= 0 && OnGrid(from, width) && OnGrid(until, width)
    ensures from <= Display(ts, width) < until <==> from <= ts < until
  {
    DisplayOnGrid(ts, width);
    var shown := Display(ts, width);
    GridGap(shown, from, width);
    GridGap(shown, until, width);
  }

  // Sums over the rows

  function Key(group: string, model: string): string {
    group + "\0" + model
  }

  // Rows of certain keys, displayed in [from, until), and not older than a given time.
  datatype Query = Query(keys: set<string>, from: int, until: int, since: Option<int>)

  // What is added up: one counter of all rows, displayed in slots of a certain width.
  datatype Table = Table(rows: seq<Row>, metric: Metric, width: Width)

  predicate Picks(q: Query, row: Row, width: Width) {
    && Key(row.group, row.model) in q.keys
    && q.from <= Display(row.ts, width) < q.until
    && (q.since.Some? ==> row.ts >= q.since.value)
  }

  function Part(t: Table, q: Query, i: nat): int
    requires i < |t.rows|
  {
    if Picks(q, t.rows[i], t.width) then Of(t.rows[i].counters, t.metric) else 0
  }

  // Over the first n rows.
  function Sum(t: Table, q: Query, n: nat): int
    requires n <= |t.rows|
  {
    if n == 0 then 0 else Sum(t, q, n - 1) + Part(t, q, n - 1)
  }

  lemma {:induction false} SumPlus(t: Table, q: Query, a: Query, b: Query, n: nat)
    requires n <= |t.rows|
    requires forall i :: 0 <= i < |t.rows| ==> Part(t, q, i) == Part(t, a, i) + Part(t, b, i)
    ensures Sum(t, q, n) == Sum(t, a, n) + Sum(t, b, n)
  {
    if n > 0 {
      SumPlus(t, q, a, b, n - 1);
    }
  }

  lemma {:induction false} SumNothing(t: Table, q: Query, n: nat)
    requires n <= |t.rows| && (q.keys == {} || q.from >= q.until)
    ensures Sum(t, q, n) == 0
  {
    if n > 0 {
      SumNothing(t, q, n - 1);
    }
  }

  lemma SumTime(t: Table, q: Query, mid: int, n: nat)
    requires n <= |t.rows| && q.from <= mid <= q.until
    ensures Sum(t, q, n) == Sum(t, q.(until := mid), n) + Sum(t, q.(from := mid), n)
  {
    var before, after := q.(until := mid), q.(from := mid);
    forall i | 0 <= i < |t.rows| ensures Part(t, q, i) == Part(t, before, i) + Part(t, after, i) {
    }
    SumPlus(t, q, before, after, n);
  }

  lemma SumKeys(t: Table, q: Query, some: set<string>, more: set<string>, n: nat)
    requires n <= |t.rows| && some !! more && q.keys == some + more
    ensures Sum(t, q, n) == Sum(t, q.(keys := some), n) + Sum(t, q.(keys := more), n)
  {
    var left, right := q.(keys := some), q.(keys := more);
    forall i | 0 <= i < |t.rows| ensures Part(t, q, i) == Part(t, left, i) + Part(t, right, i) {
    }
    SumPlus(t, q, left, right, n);
  }

  // Everything displayed in a slot of the grid is displayed at its start, and nothing is displayed off the grid.
  lemma {:induction false} SumSlot(t: Table, q: Query, n: nat)
    requires n <= |t.rows| && q.until == q.from + 1
    ensures Sum(t, q, n) == if OnGrid(q.from, t.width) then Sum(t, q.(until := q.from + t.width), n) else 0
  {
    if n > 0 {
      SumSlot(t, q, n - 1);
      PartSlot(t, q, n - 1);
    }
  }

  lemma PartSlot(t: Table, q: Query, i: nat)
    requires i < |t.rows| && q.until == q.from + 1
    ensures Part(t, q, i) == if OnGrid(q.from, t.width) then Part(t, q.(until := q.from + t.width), i) else 0
  {
    var ts := t.rows[i].ts;
    DisplayOnGrid(ts, t.width);
    if OnGrid(q.from, t.width) {
      GridGap(q.from, Display(ts, t.width), t.width);
    }
  }

  // Sums over the sources of a monitor

  // All rows of one source and model.
  function SumOf(t: Table, q: Query, source: string, model: string): int {
    Sum(t, q.(keys := {Key(source, model)}), |t.rows|)
  }

  // One such sum for each of the first k sources.
  function SourceSum(t: Table, q: Query, sources: seq<string>, model: string, k: nat): int
    requires k <= |sources|
  {
    if k == 0 then 0 else SourceSum(t, q, sources, model, k - 1) + SumOf(t, q, sources[k - 1], model)
  }

  function KeysOf(sources: seq<string>, model: string, k: nat): set<string>
    requires k <= |sources|
  {
    if k == 0 then {} else KeysOf(sources, model, k - 1) + {Key(sources[k - 1], model)}
  }

  lemma {:induction false} KeysAre(sources: seq<string>, model: string, k: nat, key: string)
    requires k <= |sources|
    ensures key in KeysOf(sources, model, k) <==> exists i :: 0 <= i < k && key == Key(sources[i], model)
  {
    if k > 0 {
      KeysAre(sources, model, k - 1, key);
    }
  }

  lemma KeyInjective(a: string, b: string, model: string)
    requires Key(a, model) == Key(b, model)
    ensures a == b
  {
    assert a == Key(a, model)[..|a|] && b == Key(b, model)[..|b|];
  }

  lemma NextKeyIsNew(sources: seq<string>, model: string, k: nat)
    requires NoDup(sources) && k < |sources|
    ensures Key(sources[k], model) !in KeysOf(sources, model, k)
  {
    KeysAre(sources, model, k, Key(sources[k], model));
    forall i | 0 <= i < k ensures Key(sources[k], model) != Key(sources[i], model) {
      if Key(sources[k], model) == Key(sources[i], model) {
        KeyInjective(sources[k], sources[i], model);
      }
    }
  }

  lemma {:induction false} SourcesOnce(t: Table, q: Query, sources: seq<string>, model: string, k: nat)
    requires NoDup(sources) && k <= |sources|
    ensures SourceSum(t, q, sources, model, k) == Sum(t, q.(keys := KeysOf(sources, model, k)), |t.rows|)
  {
    if k == 0 {
      SumNothing(t, q.(keys := KeysOf(sources, model, k)), |t.rows|);
    } else {
      SourcesOnce(t, q, sources, model, k - 1);
      NextKeyIsNew(sources, model, k - 1);
      SumOneMore(t, q, KeysOf(sources, model, k - 1), Key(sources[k - 1], model), |t.rows|);
    }
  }

  lemma SumOneMore(t: Table, q: Query, some: set<string>, key: string, n: nat)
    requires n <= |t.rows| && key !in some
    ensures Sum(t, q.(keys := some + {key}), n) == Sum(t, q.(keys := some), n) + Sum(t, q.(keys := {key}), n)
  {
    SumKeys(t, q.(keys := some + {key}), some, {key}, n);
  }

  lemma {:induction false} SourceTime(t: Table, q: Query, sources: seq<string>, model: string, mid: int, k: nat)
    requires q.from <= mid <= q.until && k <= |sources|
    ensures SourceSum(t, q, sources, model, k) ==
            SourceSum(t, q.(until := mid), sources, model, k) + SourceSum(t, q.(from := mid), sources, model, k)
  {
    if k > 0 {
      SourceTime(t, q, sources, model, mid, k - 1);
      SumTime(t, q.(keys := {Key(sources[k - 1], model)}), mid, |t.rows|);
    }
  }

  lemma {:induction false} SourceSlot(t: Table, q: Query, sources: seq<string>, model: string, k: nat)
    requires q.until == q.from + 1 && k <= |sources|
    ensures SourceSum(t, q, sources, model, k) ==
            if OnGrid(q.from, t.width) then SourceSum(t, q.(until := q.from + t.width), sources, model, k) else 0
  {
    if k > 0 {
      SourceSlot(t, q, sources, model, k - 1);
      SumSlot(t, q.(keys := {Key(sources[k - 1], model)}), |t.rows|);
    }
  }

  lemma {:induction false} SourceNothing(t: Table, q: Query, sources: seq<string>, model: string, k: nat)
    requires q.from >= q.until && k <= |sources|
    ensures SourceSum(t, q, sources, model, k) == 0
  {
    if k > 0 {
      SourceNothing(t, q, sources, model, k - 1);
      SumNothing(t, q.(keys := {Key(sources[k - 1], model)}), |t.rows|);
    }
  }

  // Sums over the series

  function BucketAt(t: Table, sources: seq<string>, model: string, ts: int): int {
    SourceSum(t, Query({}, ts, ts + 1, None), sources, model, |sources|)
  }

  // The first n buckets from start on.
  function SeriesSum(t: Table, sources: seq<string>, model: string, start: int, n: nat): int {
    if n == 0 then 0
    else SeriesSum(t, sources, model, start, n - 1) + BucketAt(t, sources, model, start + (n - 1) * t.width)
  }

  lemma GridPlus(a: int, b: int, width: Width)
    requires OnGrid(b, width)
    ensures OnGrid(a, width) ==> OnGrid(a + b, width)
  {
    if OnGrid(a, width) {
      var p, q := a / width, b / width;
      assert a == width * p && b == width * q;
      Multiple(p + q, width);
      assert (p + q) * width == a + b;
    }
  }

  lemma StartGrid(start: int, i: nat, width: Width)
    ensures OnGrid(start + i * width, width) <==> OnGrid(start, width)
  {
    var step: int := i;
    Multiple(step, width);
    Multiple(-step, width);
    GridPlus(start, step * width, width);
    assert -step * width == -(step * width);
    GridPlus(start + step * width, -step * width, width);
  }

  lemma SeriesNext(start: int, n: nat, width: Width)
    requires n > 0
    ensures var ts := start + (n - 1) * width;
      start <= ts && ts + width == start + n * width && (OnGrid(ts, width) <==> OnGrid(start, width))
  {
    StartGrid(start, n - 1, width);
  }

  // On the grid the series adds up to the whole window, source by source; off it, to nothing.
  lemma {:induction false} SeriesIs(t: Table, sources: seq<string>, model: string, start: int, n: nat)
    ensures SeriesSum(t, sources, model, start, n) ==
            if !OnGrid(start, t.width) then 0
            else SourceSum(t, Query({}, start, start + n * t.width, None), sources, model, |sources|)
  {
    var q := Query({}, start, start + n * t.width, None);
    if n == 0 {
      SourceNothing(t, q, sources, model, |sources|);
    } else {
      SeriesIs(t, sources, model, start, n - 1);
      SeriesNext(start, n, t.width);
      var ts := start + (n - 1) * t.width;
      SourceSlot(t, Query({}, ts, ts + 1, None), sources, model, |sources|);
      SourceTime(t, q, sources, model, ts, |sources|);
    }
  }

  // The same sums taken directly over the rows

  predicate ProperRow(row: Row) {
    row.ts >= 0 && '\0' !in row.group
  }

  // Timestamps are not negative and no group name holds the separator.
  predicate Proper(rows: seq<Row>) {
    forall i :: 0 <= i < |rows| ==> ProperRow(rows[i])
  }

  predicate ProperMonitor(mon: Monitor) {
    forall i :: 0 <= i < |mon.sources| ==> '\0' !in mon.sources[i]
  }

  predicate Inside(row: Row, from: int, until: int, since: Option<int>) {
    from <= row.ts < until && (since.Some? ==> row.ts >= since.value)
  }

  // Rows of these groups and models with a timestamp in the window.
  function Direct(t: Table, groups: set<string>, models: set<string>, q: Query, n: nat): int
    requires n <= |t.rows|
  {
    if n == 0 then 0
    else
      var row := t.rows[n - 1];
      Direct(t, groups, models, q, n - 1) +
      (if row.group in groups && row.model in models && Inside(row, q.from, q.until, q.since)
       then Of(row.counters, t.metric) else 0)
  }

  lemma KeySplit(a: string, x: string, b: string, y: string)
    requires '\0' !in a && '\0' !in b && Key(a, x) == Key(b, y)
    ensures a == b && x == y
  {
    var s := Key(a, x);
    assert s[|a|] == '\0' && s[|b|] == '\0';
    assert a == s[..|a|] && b == s[..|b|];
    assert x == s[|a| + 1..] && y == s[|b| + 1..];
  }

  lemma KeyOfSource(row: Row, mon: Monitor, model: string)
    requires ProperRow(row) && ProperMonitor(mon)
    ensures Key(row.group, row.model) in KeysOf(mon.sources, model, |mon.sources|) <==>
            row.group in mon.sources && row.model == model
  {
    KeysAre(mon.sources, model, |mon.sources|, Key(row.group, row.model));
    forall i | 0 <= i < |mon.sources|
      ensures Key(row.group, row.model) == Key(mon.sources[i], model) <==>
        row.group == mon.sources[i] && row.model == model
    {
      if Key(row.group, row.model) == Key(mon.sources[i], model) {
        KeySplit(row.group, row.model, mon.sources[i], model);
      }
    }
  }

  lemma {:induction false} SumIsDirect(t: Table, q: Query, mon: Monitor, model: string, n: nat)
    requires n <= |t.rows| && Proper(t.rows) && ProperMonitor(mon)
    requires OnGrid(q.from, t.width) && OnGrid(q.until, t.width)
    requires q.keys == KeysOf(mon.sources, model, |mon.sources|)
    ensures Sum(t, q, n) == Direct(t, Elements(mon.sources), {model}, q, n)
  {
    if n > 0 {
      SumIsDirect(t, q, mon, model, n - 1);
      var row := t.rows[n - 1];
      assert ProperRow(row);
      DisplayInWindow(row.ts, q.from, q.until, t.width);
      KeyOfSource(row, mon, model);
    }
  }

  // On the grid and with each source named once, a sum over the sources is the direct sum.
  lemma SourcesDirect(t: Table, q: Query, mon: Monitor, model: string)
    requires Proper(t.rows) && ProperMonitor(mon) && NoDup(mon.sources)
    requires OnGrid(q.from, t.width) && OnGrid(q.until, t.width)
    ensures SourceSum(t, q, mon.sources, model, |mon.sources|) == Direct(t, Elements(mon.sources), {model}, q, |t.rows|)
  {
    SourcesOnce(t, q, mon.sources, model, |mon.sources|);
    var keyed := q.(keys := KeysOf(mon.sources, model, |mon.sources|));
    SumIsDirect(t, keyed, mon, model, |t.rows|);
    DirectKeys(t, Elements(mon.sources), {model}, keyed, q, |t.rows|);
  }

  lemma {:induction false} DirectKeys(t: Table, groups: set<string>, models: set<string>, q: Query, r: Query, n: nat)
    requires n <= |t.rows| && r == q.(keys := r.keys)
    ensures Direct(t, groups, models, q, n) == Direct(t, groups, models, r, n)
  {
    if n > 0 {
      DirectKeys(t, groups, models, q, r, n - 1);
    }
  }

  // Coverage

  predicate Covers(mon: Monitor, key: string) {
    exists i, j :: 0 <= i < |mon.sources| && 0 <= j < |mon.models| && key == Key(mon.sources[i], mon.models[j])
  }

  predicate Covered(monitors: seq<Monitor>, k: nat, key: string)
    requires k <= |monitors|
  {
    exists g :: 0 <= g < k && Covers(monitors[g], key)
  }

  method CoverageOf(monitors: seq<Monitor>) returns (coverage: set<string>)
    ensures forall key :: key in coverage <==> Covered(monitors, |monitors|, key)
  {
    coverage := {};
    for g := 0 to |monitors|
      invariant forall key :: key in coverage <==> Covered(monitors, g, key)
    {
      var pairs := PairsOf(monitors[g]);
      coverage := coverage + pairs;
    }
  }

  method PairsOf(mon: Monitor) returns (keys: set<string>)
    ensures forall key :: key in keys <==> Covers(mon, key)
  {
    keys := {};
    for i := 0 to |mon.sources|
      invariant forall key :: key in keys <==>
        exists a, j :: 0 <= a < i && 0 <= j < |mon.models| && key == Key(mon.sources[a], mon.models[j])
    {
      ghost var before := keys;
      for j := 0 to |mon.models|
        invariant forall key :: key in keys <==>
          key in before || exists b :: 0 <= b < j && key == Key(mon.sources[i], mon.models[b])
      {
        keys := keys + {Key(mon.sources[i], mon.models[j])};
      }
    }
  }

  // Rolling the rows up

  const WINDOW_SECONDS := 86400

  datatype Window = Window(start: int, count: nat, width: Width, latencyStart: int) {
    function End(): int {
      start + count * width
    }
  }

  // The counters of the first n rows that a query picks.
  ghost predicate Counts(c: Counters, rows: seq<Row>, q: Query, width: Width, n: nat)
    requires n <= |rows|
  {
    forall m :: Of(c, m) == Sum(Table(rows, m, width), q, n)
  }

  lemma CountRow(c: Counters, rows: seq<Row>, q: Query, width: Width, n: nat)
    requires n < |rows| && Counts(c, rows, q, width, n)
    ensures Counts(if Picks(q, rows[n], width) then c.Plus(rows[n].counters) else c, rows, q, width, n + 1)
  {
    var c' := if Picks(q, rows[n], width) then c.Plus(rows[n].counters) else c;
    forall m ensures Of(c', m) == Sum(Table(rows, m, width), q, n + 1) {
      var t := Table(rows, m, width);
      assert Sum(t, q, n + 1) == Sum(t, q, n) + Part(t, q, n);
      assert Of(c.Plus(rows[n].counters), m) == Of(c, m) + Of(rows[n].counters, m);
    }
  }

  function Get(m: map<string, Counters>, key: string): Counters {
    if key in m then m[key] else ZERO
  }

  function At(rolled: map<string, map<int, Counters>>, key: string, ts: int): Counters {
    if key in rolled && ts in rolled[key] then rolled[key][ts] else ZERO
  }

  // Each covered key has its counters at each time shown.
  ghost predicate RolledTo(rolled: map<string, map<int, Counters>>, coverage: set<string>, rows: seq<Row>, w: Window,
                           n: nat)
    requires n <= |rows|
  {
    forall key, ts :: key in coverage && w.start <= ts < w.End() ==>
      Counts(At(rolled, key, ts), rows, Query({key}, ts, ts + 1, None), w.width, n)
  }

  // Each covered key has its counters since a given time.
  ghost predicate SinceTo(recent: map<string, Counters>, coverage: set<string>, rows: seq<Row>, w: Window, since: int,
                          n: nat)
    requires n <= |rows|
  {
    forall key :: key in coverage ==>
      Counts(Get(recent, key), rows, Query({key}, w.start, w.End(), Some(since)), w.width, n)
  }

  method AddAt(rolled: map<string, map<int, Counters>>, key: string, ts: int, c: Counters)
    returns (r: map<string, map<int, Counters>>)
    ensures forall k, s :: At(r, k, s) == if k == key && s == ts then At(rolled, k, s).Plus(c) else At(rolled, k, s)
  {
    r := rolled;
    if key !in r {
      r := r[key := map[]];
    }
    r := r[key := r[key][ts := At(rolled, key, ts).Plus(c)]];
  }

  // What a row changes: its own counters go to its own key and display time.
  ghost predicate AddedAt(before: Counters, after: Counters, row: Row, key: string, ts: int, width: Width) {
    after ==
    if Key(row.group, row.model) == key && Display(row.ts, width) == ts then before.Plus(row.counters) else before
  }

  lemma CellRow(before: Counters, after: Counters, rows: seq<Row>, key: string, ts: int, width: Width, n: nat)
    requires n < |rows| && AddedAt(before, after, rows[n], key, ts, width)
    requires Counts(before, rows, Query({key}, ts, ts + 1, None), width, n)
    ensures Counts(after, rows, Query({key}, ts, ts + 1, None), width, n + 1)
  {
    var q := Query({key}, ts, ts + 1, None);
    assert Picks(q, rows[n], width) <==> Key(rows[n].group, rows[n].model) == key && Display(rows[n].ts, width) == ts;
    CountRow(before, rows, q, width, n);
  }

  lemma RolledRow(rolled: map<string, map<int, Counters>>, r: map<string, map<int, Counters>>, coverage: set<string>,
                  rows: seq<Row>, w: Window, n: nat)
    requires n < |rows| && RolledTo(rolled, coverage, rows, w, n)
    requires forall key, ts :: key in coverage && w.start <= ts < w.End() ==>
      AddedAt(At(rolled, key, ts), At(r, key, ts), rows[n], key, ts, w.width)
    ensures RolledTo(r, coverage, rows, w, n + 1)
  {
    forall key, ts | key in coverage && w.start <= ts < w.End()
      ensures Counts(At(r, key, ts), rows, Query({key}, ts, ts + 1, None), w.width, n + 1)
    {
      CellRow(At(rolled, key, ts), At(r, key, ts), rows, key, ts, w.width, n);
    }
  }

  lemma SinceRow(recent: map<string, Counters>, r: map<string, Counters>, coverage: set<string>, rows: seq<Row>,
                 w: Window, since: int, n: nat)
    requires n < |rows| && SinceTo(recent, coverage, rows, w, since, n)
    requires var row := rows[n];
      forall k :: k in coverage ==>
        Get(r, k) ==
        if k == Key(row.group, row.model) && w.start <= Display(row.ts, w.width) < w.End() && row.ts >= since
        then Get(recent, k).Plus(row.counters) else Get(recent, k)
    ensures SinceTo(r, coverage, rows, w, since, n + 1)
  {
    forall key | key in coverage
      ensures Counts(Get(r, key), rows, Query({key}, w.start, w.End(), Some(since)), w.width, n + 1)
    {
      CountRow(Get(recent, key), rows, Query({key}, w.start, w.End(), Some(since)), w.width, n);
    }
  }

  method Roll(rows: seq<Row>, coverage: set<string>, w: Window)
    returns (rolled: map<string, map<int, Counters>>, recent: map<string, Counters>, lastDay: map<string, Counters>,
             overall: Counters)
    ensures RolledTo(rolled, coverage, rows, w, |rows|)
    ensures SinceTo(recent, coverage, rows, w, w.latencyStart, |rows|)
    ensures SinceTo(lastDay, coverage, rows, w, w.End() - WINDOW_SECONDS, |rows|)
    ensures Counts(overall, rows, Query(coverage, w.start, w.End(), None), w.width, |rows|)
  {
    rolled, recent, lastDay, overall := map[], map[], map[], ZERO;
    for n := 0 to |rows|
      invariant RolledTo(rolled, coverage, rows, w, n)
      invariant SinceTo(recent, coverage, rows, w, w.latencyStart, n)
      invariant SinceTo(lastDay, coverage, rows, w, w.End() - WINDOW_SECONDS, n)
      invariant Counts(overall, rows, Query(coverage, w.start, w.End(), None), w.width, n)
    {
      var row := rows[n];
      ghost var rolled0, recent0, lastDay0 := rolled, recent, lastDay;
      CountRow(overall, rows, Query(coverage, w.start, w.End(), None), w.width, n);
      var displayTs := Display(row.ts, w.width);
      var key := Key(row.group, row.model);
      if w.start <= displayTs < w.End() && key in coverage {
        rolled := AddAt(rolled, key, displayTs, row.counters);
        overall := overall.Plus(row.counters);
        if row.ts >= w.latencyStart {
          recent := recent[key := Get(recent, key).Plus(row.counters)];
        }
        if row.ts >= w.End() - WINDOW_SECONDS {
          lastDay := lastDay[key := Get(lastDay, key).Plus(row.counters)];
        }
      }
      RolledRow(rolled0, rolled, coverage, rows, w, n);
      SinceRow(recent0, recent, coverage, rows, w, w.latencyStart, n);
      SinceRow(lastDay0, lastDay, coverage, rows, w, w.End() - WINDOW_SECONDS, n);
    }
  }

  // Summaries

  datatype Bucket = Bucket(ts: int, value: Counters)

  datatype ModelSummary = ModelSummary(model: string, total: Counters, recent: Counters, day: Counters,
                                       buckets: seq<Bucket>)

  datatype Card = Card(models: seq<ModelSummary>, total: Counters)

  // The counters of the first k sources.
  ghost predicate CountsSources(c: Counters, rows: seq<Row>, q: Query, width: Width, sources: seq<string>,
                                model: string, k: nat)
    requires k <= |sources|
  {
    forall m :: Of(c, m) == SourceSum(Table(rows, m, width), q, sources, model, k)
  }

  ghost predicate CountsSeries(c: Counters, rows: seq<Row>, w: Window, sources: seq<string>, model: string, n: nat) {
    forall m :: Of(c, m) == SeriesSum(Table(rows, m, w.width), sources, model, w.start, n)
  }

  lemma CountSource(c: Counters, more: Counters, rows: seq<Row>, q: Query, width: Width, sources: seq<string>,
                    model: string, k: nat)
    requires k < |sources| && CountsSources(c, rows, q, width, sources, model, k)
    requires Counts(more, rows, q.(keys := {Key(sources[k], model)}), width, |rows|)
    ensures CountsSources(c.Plus(more), rows, q, width, sources, model, k + 1)
  {
    forall m ensures Of(c.Plus(more), m) == SourceSum(Table(rows, m, width), q, sources, model, k + 1) {
      assert Of(c.Plus(more), m) == Of(c, m) + Of(more, m);
    }
  }

  lemma CountBucket(c: Counters, more: Counters, rows: seq<Row>, w: Window, sources: seq<string>, model: string, n: nat)
    requires CountsSeries(c, rows, w, sources, model, n)
    requires var ts := w.start + n * w.width;
      CountsSources(more, rows, Query({}, ts, ts + 1, None), w.width, sources, model, |sources|)
    ensures CountsSeries(c.Plus(more), rows, w, sources, model, n + 1)
  {
    forall m ensures Of(c.Plus(more), m) == SeriesSum(Table(rows, m, w.width), sources, model, w.start, n + 1) {
      assert Of(c.Plus(more), m) == Of(c, m) + Of(more, m);
      assert Of(more, m) == BucketAt(Table(rows, m, w.width), sources, model, w.start + n * w.width);
    }
  }

  ghost predicate CoversModel(coverage: set<string>, mon: Monitor, model: string) {
    forall k :: 0 <= k < |mon.sources| ==> Key(mon.sources[k], model) in coverage
  }

  method SumSince(values: map<string, Counters>, mon: Monitor, model: string, ghost rows: seq<Row>,
                  ghost coverage: set<string>, ghost w: Window, ghost since: int)
    returns (c: Counters)
    requires CoversModel(coverage, mon, model) && SinceTo(values, coverage, rows, w, since, |rows|)
    ensures CountsSources(c, rows, Query({}, w.start, w.End(), Some(since)), w.width, mon.sources, model, |mon.sources|)
  {
    c := ZERO;
    for k := 0 to |mon.sources|
      invariant CountsSources(c, rows, Query({}, w.start, w.End(), Some(since)), w.width, mon.sources, model, k)
    {
      var key := Key(mon.sources[k], model);
      CountSource(c, Get(values, key), rows, Query({}, w.start, w.End(), Some(since)), w.width, mon.sources, model, k);
      c := c.Plus(Get(values, key));
    }
  }

  method SumBucket(rolled: map<string, map<int, Counters>>, mon: Monitor, model: string, ts: int, ghost rows: seq<Row>,
                   ghost coverage: set<string>, ghost w: Window)
    returns (value: Counters)
    requires CoversModel(coverage, mon, model) && RolledTo(rolled, coverage, rows, w, |rows|) && w.start <= ts < w.End()
    ensures CountsSources(value, rows, Query({}, ts, ts + 1, None), w.width, mon.sources, model, |mon.sources|)
  {
    value := ZERO;
    for k := 0 to |mon.sources|
      invariant CountsSources(value, rows, Query({}, ts, ts + 1, None), w.width, mon.sources, model, k)
    {
      var key := Key(mon.sources[k], model);
      CountSource(value, At(rolled, key, ts), rows, Query({}, ts, ts + 1, None), w.width, mon.sources, model, k);
      value := value.Plus(At(rolled, key, ts));
    }
  }

  ghost predicate BucketOk(b: Bucket, rows: seq<Row>, mon: Monitor, model: string, w: Window, i: nat) {
    && b.ts == w.start + i * w.width
    && CountsSources(b.value, rows, Query({}, b.ts, b.ts + 1, None), w.width, mon.sources, model, |mon.sources|)
  }

  // What a summary holds, before any assumption on the monitor or the window.
  ghost predicate SummaryOk(s: ModelSummary, rows: seq<Row>, mon: Monitor, model: string, w: Window) {
    && s.model == model
    && |s.buckets| == w.count
    && (forall i :: 0 <= i < w.count ==> BucketOk(s.buckets[i], rows, mon, model, w, i))
    && CountsSeries(s.total, rows, w, mon.sources, model, w.count)
    && CountsSources(s.recent, rows, Query({}, w.start, w.End(), Some(w.latencyStart)), w.width, mon.sources, model,
                     |mon.sources|)
    && CountsSources(s.day, rows, Query({}, w.start, w.End(), Some(w.End() - WINDOW_SECONDS)), w.width, mon.sources,
                     model, |mon.sources|)
  }

  lemma Ahead(i: nat, n: nat, width: Width)
    requires i < n
    ensures 0 <= i * width < i * width + width <= n * width
  {
    Whole(n - i, width);
    assert n * width == i * width + (n - i) * width;
  }

  lemma InSeries(w: Window, i: nat)
    requires i < w.count
    ensures w.start <= w.start + i * w.width < w.End()
  {
    Ahead(i, w.count, w.width);
  }

  method Summarize(mon: Monitor, model: string, w: Window, rolled: map<string, map<int, Counters>>,
                   recent: map<string, Counters>, lastDay: map<string, Counters>,
                   ghost rows: seq<Row>, ghost coverage: set<string>)
    returns (s: ModelSummary)
    requires CoversModel(coverage, mon, model)
    requires RolledTo(rolled, coverage, rows, w, |rows|) && SinceTo(recent, coverage, rows, w, w.latencyStart, |rows|)
    requires SinceTo(lastDay, coverage, rows, w, w.End() - WINDOW_SECONDS, |rows|)
    ensures SummaryOk(s, rows, mon, model, w)
  {
    var recentCounters := SumSince(recent, mon, model, rows, coverage, w, w.latencyStart);
    var dayCounters := SumSince(lastDay, mon, model, rows, coverage, w, w.End() - WINDOW_SECONDS);
    var total := ZERO;
    var series: seq<Bucket> := [];
    for i := 0 to w.count
      invariant |series| == i && forall j :: 0 <= j < i ==> BucketOk(series[j], rows, mon, model, w, j)
      invariant CountsSeries(total, rows, w, mon.sources, model, i)
    {
      InSeries(w, i);
      var ts := w.start + i * w.width;
      var value := SumBucket(rolled, mon, model, ts, rows, coverage, w);
      CountBucket(total, value, rows, w, mon.sources, model, i);
      total := total.Plus(value);
      series := series + [Bucket(ts, value)];
    }
    s := ModelSummary(model, total, recentCounters, dayCounters, series);
  }

  // The totals of the first n summaries.
  function ModelTotals(models: seq<ModelSummary>, m: Metric, n: nat): int
    requires n <= |models|
  {
    if n == 0 then 0 else ModelTotals(models, m, n - 1) + Of(models[n - 1].total, m)
  }

  ghost predicate CardOk(card: Card, rows: seq<Row>, mon: Monitor, w: Window) {
    && |card.models| == |mon.models|
    && (forall j :: 0 <= j < |mon.models| ==> SummaryOk(card.models[j], rows, mon, mon.models[j], w))
    && forall m :: Of(card.total, m) == ModelTotals(card.models, m, |card.models|)
  }

  lemma {:induction false} TotalsPrefix(models: seq<ModelSummary>, s: ModelSummary, m: Metric, n: nat)
    requires n <= |models|
    ensures ModelTotals(models + [s], m, n) == ModelTotals(models, m, n)
  {
    if n > 0 {
      TotalsPrefix(models, s, m, n - 1);
    }
  }

  lemma CardNext(total: Counters, models: seq<ModelSummary>, s: ModelSummary)
    requires forall m :: Of(total, m) == ModelTotals(models, m, |models|)
    ensures forall m :: Of(total.Plus(s.total), m) == ModelTotals(models + [s], m, |models| + 1)
  {
    forall m ensures Of(total.Plus(s.total), m) == ModelTotals(models + [s], m, |models| + 1) {
      TotalsPrefix(models, s, m, |models|);
      assert Of(total.Plus(s.total), m) == Of(total, m) + Of(s.total, m);
    }
  }

  method SummarizeCard(mon: Monitor, w: Window, rolled: map<string, map<int, Counters>>, recent: map<string, Counters>,
                       lastDay: map<string, Counters>, ghost rows: seq<Row>, ghost coverage: set<string>)
    returns (card: Card)
    requires forall j :: 0 <= j < |mon.models| ==> CoversModel(coverage, mon, mon.models[j])
    requires RolledTo(rolled, coverage, rows, w, |rows|) && SinceTo(recent, coverage, rows, w, w.latencyStart, |rows|)
    requires SinceTo(lastDay, coverage, rows, w, w.End() - WINDOW_SECONDS, |rows|)
    ensures CardOk(card, rows, mon, w)
  {
    var models: seq<ModelSummary> := [];
    var total := ZERO;
    for j := 0 to |mon.models|
      invariant |models| == j && forall i :: 0 <= i < j ==> SummaryOk(models[i], rows, mon, mon.models[i], w)
      invariant forall m :: Of(total, m) == ModelTotals(models, m, |models|)
    {
      var s := Summarize(mon, mon.models[j], w, rolled, recent, lastDay, rows, coverage);
      CardNext(total, models, s);
      total := total.Plus(s.total);
      models := models + [s];
    }
    card := Card(models, total);
  }

  method BuildGroups(rows: seq<Row>, monitors: seq<Monitor>, w: Window) returns (cards: seq<Card>, overall: Counters)
    ensures |cards| == |monitors| && forall g :: 0 <= g < |cards| ==> CardOk(cards[g], rows, monitors[g], w)
    ensures forall m :: Of(overall, m) == DirectOnce(Table(rows, m, w.width), monitors, w, |rows|)
  {
    var coverage := CoverageOf(monitors);
    var rolled, recent, lastDay, all := Roll(rows, coverage, w);
    overall := all;
    cards := [];
    for g := 0 to |monitors|
      invariant |cards| == g && forall i :: 0 <= i < g ==> CardOk(cards[i], rows, monitors[i], w)
    {
      ModelsCovered(monitors, coverage, g);
      var card := SummarizeCard(monitors[g], w, rolled, recent, lastDay, rows, coverage);
      cards := cards + [card];
    }
    forall m ensures Of(overall, m) == DirectOnce(Table(rows, m, w.width), monitors, w, |rows|) {
      OnceIs(Table(rows, m, w.width), monitors, coverage, w, |rows|);
    }
  }

  lemma ModelsCovered(monitors: seq<Monitor>, coverage: set<string>, g: nat)
    requires g < |monitors| && forall key :: key in coverage <==> Covered(monitors, |monitors|, key)
    ensures forall j :: 0 <= j < |monitors[g].models| ==> CoversModel(coverage, monitors[g], monitors[g].models[j])
  {
    var mon := monitors[g];
    forall j, k | 0 <= j < |mon.models| && 0 <= k < |mon.sources|
      ensures Key(mon.sources[k], mon.models[j]) in coverage
    {
      assert Covers(mon, Key(mon.sources[k], mon.models[j]));
    }
  }

  // Every row that some monitor covers, once, however many monitors do.
  ghost function DirectOnce(t: Table, monitors: seq<Monitor>, w: Window, n: nat): int
    requires n <= |t.rows|
  {
    if n == 0 then 0
    else
      var row := t.rows[n - 1];
      DirectOnce(t, monitors, w, n - 1) +
      (if Covered(monitors, |monitors|, Key(row.group, row.model)) && w.start <= Display(row.ts, t.width) < w.End()
       then Of(row.counters, t.metric) else 0)
  }

  lemma {:induction false} OnceIs(t: Table, monitors: seq<Monitor>, coverage: set<string>, w: Window, n: nat)
    requires n <= |t.rows| && forall key :: key in coverage <==> Covered(monitors, |monitors|, key)
    ensures Sum(t, Query(coverage, w.start, w.End(), None), n) == DirectOnce(t, monitors, w, n)
  {
    if n > 0 {
      OnceIs(t, monitors, coverage, w, n - 1);
    }
  }

  // The theorems

  lemma WindowOnGrid(w: Window)
    ensures OnGrid(w.start, w.width) <==> OnGrid(w.End(), w.width)
  {
    StartGrid(w.start, w.count, w.width);
  }

  function InWindow(w: Window, since: Option<int>): Query {
    Query({}, w.start, w.End(), since)
  }

  // A model's total, latency figures and last-day figures are direct sums over its rows.
  lemma SummaryIsDirect(s: ModelSummary, rows: seq<Row>, mon: Monitor, model: string, w: Window, m: Metric)
    requires SummaryOk(s, rows, mon, model, w) && OnGrid(w.start, w.width)
    requires Proper(rows) && ProperMonitor(mon) && NoDup(mon.sources)
    ensures var t, groups := Table(rows, m, w.width), Elements(mon.sources);
      && Of(s.total, m) == Direct(t, groups, {model}, InWindow(w, None), |rows|)
      && Of(s.recent, m) == Direct(t, groups, {model}, InWindow(w, Some(w.latencyStart)), |rows|)
      && Of(s.day, m) == Direct(t, groups, {model}, InWindow(w, Some(w.End() - 24 * 60 * 60)), |rows|)
  {
    var t := Table(rows, m, w.width);
    WindowOnGrid(w);
    SeriesIs(t, mon.sources, model, w.start, w.count);
    SourcesDirect(t, InWindow(w, None), mon, model);
    SourcesDirect(t, InWindow(w, Some(w.latencyStart)), mon, model);
    SourcesDirect(t, InWindow(w, Some(w.End() - WINDOW_SECONDS)), mon, model);
  }

  // The first n buckets as they are shown.
  function BucketTotals(buckets: seq<Bucket>, m: Metric, n: nat): int
    requires n <= |buckets|
  {
    if n == 0 then 0 else BucketTotals(buckets, m, n - 1) + Of(buckets[n - 1].value, m)
  }

  lemma {:induction false} BucketsAre(s: ModelSummary, rows: seq<Row>, mon: Monitor, model: string, w: Window,
                                      m: Metric, n: nat)
    requires SummaryOk(s, rows, mon, model, w) && n <= w.count
    ensures BucketTotals(s.buckets, m, n) == SeriesSum(Table(rows, m, w.width), mon.sources, model, w.start, n)
  {
    if n > 0 {
      BucketsAre(s, rows, mon, model, w, m, n - 1);
      assert BucketOk(s.buckets[n - 1], rows, mon, model, w, n - 1);
    }
  }

  // On any grid and with any sources, a model's total is what its buckets add up to.
  lemma TotalIsItsBuckets(s: ModelSummary, rows: seq<Row>, mon: Monitor, model: string, w: Window, m: Metric)
    requires SummaryOk(s, rows, mon, model, w)
    ensures Of(s.total, m) == BucketTotals(s.buckets, m, |s.buckets|)
  {
    BucketsAre(s, rows, mon, model, w, m, w.count);
  }

  lemma {:induction false} DirectModels(t: Table, groups: set<string>, some: set<string>, model: string, q: Query,
                                        n: nat)
    requires n <= |t.rows| && model !in some
    ensures Direct(t, groups, some + {model}, q, n) == Direct(t, groups, some, q, n) + Direct(t, groups, {model}, q, n)
  {
    if n > 0 {
      DirectModels(t, groups, some, model, q, n - 1);
    }
  }

  lemma {:induction false} DirectNoModels(t: Table, groups: set<string>, q: Query, n: nat)
    requires n <= |t.rows|
    ensures Direct(t, groups, {}, q, n) == 0
  {
    if n > 0 {
      DirectNoModels(t, groups, q, n - 1);
    }
  }

  lemma {:induction false} CardTotals(card: Card, rows: seq<Row>, mon: Monitor, w: Window, m: Metric, n: nat)
    requires CardOk(card, rows, mon, w) && OnGrid(w.start, w.width) && n <= |mon.models|
    requires Proper(rows) && ProperMonitor(mon) && NoDup(mon.sources) && NoDup(mon.models)
    ensures ModelTotals(card.models, m, n) ==
            Direct(Table(rows, m, w.width), Elements(mon.sources), Elements(mon.models[..n]), InWindow(w, None), |rows|)
  {
    var t, groups, q := Table(rows, m, w.width), Elements(mon.sources), InWindow(w, None);
    if n == 0 {
      assert Elements(mon.models[..0]) == {};
      DirectNoModels(t, groups, q, |rows|);
    } else {
      var model := mon.models[n - 1];
      CardTotals(card, rows, mon, w, m, n - 1);
      SummaryIsDirect(card.models[n - 1], rows, mon, model, w, m);
      assert mon.models[..n] == mon.models[..n - 1] + [model];
      assert Elements(mon.models[..n]) == Elements(mon.models[..n - 1]) + {model};
      DirectModels(t, groups, Elements(mon.models[..n - 1]), model, q, |rows|);
    }
  }

  // A card's total is the direct sum over all rows of its sources and models.
  lemma CardIsDirect(card: Card, rows: seq<Row>, mon: Monitor, w: Window, m: Metric)
    requires CardOk(card, rows, mon, w) && OnGrid(w.start, w.width)
    requires Proper(rows) && ProperMonitor(mon) && NoDup(mon.sources) && NoDup(mon.models)
    ensures Of(card.total, m) ==
            Direct(Table(rows, m, w.width), Elements(mon.sources), Elements(mon.models), InWindow(w, None), |rows|)
  {
    CardTotals(card, rows, mon, w, m, |mon.models|);
    assert mon.models[..|mon.models|] == mon.models;
  }

  predicate Watches(mon: Monitor, row: Row) {
    row.group in mon.sources && row.model in mon.models
  }

  // Rows with a timestamp in the window that some monitor watches, each once.
  function DirectAny(t: Table, monitors: seq<Monitor>, w: Window, n: nat): int
    requires n <= |t.rows|
  {
    if n == 0 then 0
    else
      var row := t.rows[n - 1];
      DirectAny(t, monitors, w, n - 1) +
      (if (exists g :: 0 <= g < |monitors| && Watches(monitors[g], row)) && w.start <= row.ts < w.End()
       then Of(row.counters, t.metric) else 0)
  }

  lemma CoversIsWatches(mon: Monitor, row: Row)
    requires ProperMonitor(mon) && ProperRow(row)
    ensures Covers(mon, Key(row.group, row.model)) <==> Watches(mon, row)
  {
    var key := Key(row.group, row.model);
    if Covers(mon, key) {
      var i, j :| 0 <= i < |mon.sources| && 0 <= j < |mon.models| && key == Key(mon.sources[i], mon.models[j]);
      KeySplit(row.group, row.model, mon.sources[i], mon.models[j]);
    }
  }

  // The overall figure is the direct sum over the rows watched, however the monitors overlap.
  lemma {:induction false} OverallIsDirect(t: Table, monitors: seq<Monitor>, w: Window, n: nat)
    requires n <= |t.rows| && t.width == w.width && OnGrid(w.start, w.width)
    requires Proper(t.rows) && forall g :: 0 <= g < |monitors| ==> ProperMonitor(monitors[g])
    ensures DirectOnce(t, monitors, w, n) == DirectAny(t, monitors, w, n)
  {
    if n > 0 {
      OverallIsDirect(t, monitors, w, n - 1);
      var row := t.rows[n - 1];
      assert ProperRow(row);
      WindowOnGrid(w);
      DisplayInWindow(row.ts, w.start, w.End(), w.width);
      forall g | 0 <= g < |monitors|
        ensures Covers(monitors[g], Key(row.group, row.model)) <==> Watches(monitors[g], row)
      {
        CoversIsWatches(monitors[g], row);
      }
    }
  }

  // When the total is right

  lemma {:induction false} SourceTwice(t: Table, q: Query, sources: seq<string>, model: string, i: nat, j: nat, k: nat)
    requires i < j < |sources| && k <= |sources| && sources[i] == sources[j]
    requires |t.rows| == 1 && Of(t.rows[0].counters, t.metric) == 1
    requires Key(t.rows[0].group, t.rows[0].model) == Key(sources[i], model)
    requires q.from <= Display(t.rows[0].ts, t.width) < q.until && q.since.None?
    ensures SourceSum(t, q, sources, model, k) >= (if i < k then 1 else 0) + (if j < k then 1 else 0)
  {
    if k > 0 {
      SourceTwice(t, q, sources, model, i, j, k - 1);
      var keyed := q.(keys := {Key(sources[k - 1], model)});
      assert Sum(t, keyed, 1) == Sum(t, keyed, 0) + Part(t, keyed, 0);
    }
  }

  lemma OneRow(row: Row, groups: set<string>, model: string, q: Query, width: Width)
    requires row.group in groups && row.model == model && Inside(row, q.from, q.until, q.since)
    requires row.counters.requests == 1
    ensures var t := Table([row], Requests, width);
      Direct(t, groups, {model}, q, 1) == 1
  {
    var t := Table([row], Requests, width);
    assert Direct(t, groups, {model}, q, 0) == 0;
  }

  // For every set of rows the request count of a model is the direct one.
  ghost predicate CountsRight(mon: Monitor, model: string, w: Window) {
    forall rows :: Proper(rows) ==> RequestsRight(rows, mon, model, w)
  }

  ghost predicate RequestsRight(rows: seq<Row>, mon: Monitor, model: string, w: Window) {
    var t := Table(rows, Requests, w.width);
    SeriesSum(t, mon.sources, model, w.start, w.count) ==
    Direct(t, Elements(mon.sources), {model}, InWindow(w, None), |rows|)
  }

  lemma OffGridMisses(mon: Monitor, model: string, w: Window)
    requires w.start >= 0 && ProperMonitor(mon) && w.count > 0 && |mon.sources| > 0 && !OnGrid(w.start, w.width)
    ensures !CountsRight(mon, model, w)
  {
    var ts := Display(w.start + w.width - 1, w.width);
    DisplayOnGrid(w.start + w.width - 1, w.width);
    var row := Row(mon.sources[0], model, ts, ZERO.(requests := 1));
    InSeries(w, 0);
    Ahead(0, w.count, w.width);
    SeriesIs(Table([row], Requests, w.width), mon.sources, model, w.start, w.count);
    OneRow(row, Elements(mon.sources), model, InWindow(w, None), w.width);
    assert Proper([row]) && !RequestsRight([row], mon, model, w);
  }

  lemma RepeatCountsTwice(mon: Monitor, model: string, w: Window, i: nat, j: nat)
    requires w.start >= 0 && ProperMonitor(mon) && w.count > 0 && OnGrid(w.start, w.width)
    requires i < j < |mon.sources| && mon.sources[i] == mon.sources[j]
    ensures !CountsRight(mon, model, w)
  {
    var row := Row(mon.sources[i], model, w.start, ZERO.(requests := 1));
    var t := Table([row], Requests, w.width);
    InSeries(w, 0);
    DisplayOnGrid(w.start, w.width);
    GridGap(Display(w.start, w.width), w.start, w.width);
    SeriesIs(t, mon.sources, model, w.start, w.count);
    SourceTwice(t, InWindow(w, None), mon.sources, model, i, j, |mon.sources|);
    OneRow(row, Elements(mon.sources), model, InWindow(w, None), w.width);
    assert Proper([row]) && !RequestsRight([row], mon, model, w);
  }

  // A shown model is counted right for all rows exactly when the series starts on the grid and no source is
  // named twice.
  lemma RightExactlyWhen(mon: Monitor, model: string, w: Window)
    requires w.start >= 0 && ProperMonitor(mon) && w.count > 0 && |mon.sources| > 0
    ensures CountsRight(mon, model, w) <==> OnGrid(w.start, w.width) && NoDup(mon.sources)
  {
    if !OnGrid(w.start, w.width) {
      OffGridMisses(mon, model, w);
    } else if !NoDup(mon.sources) {
      var i, j :| 0 <= i < j < |mon.sources| && mon.sources[i] == mon.sources[j];
      RepeatCountsTwice(mon, model, w, i, j);
    } else {
      WindowOnGrid(w);
      forall rows | Proper(rows) ensures RequestsRight(rows, mon, model, w) {
        var t := Table(rows, Requests, w.width);
        SeriesIs(t, mon.sources, model, w.start, w.count);
        SourcesDirect(t, InWindow(w, None), mon, model);
      }
    }
  }

  // The window the page asks for

  function SeriesEnd(now: int, width: Width, flushMinutes: int): int {
    Display(now - flushMinutes * 60, width)
  }

  function LatencyStart(seriesEnd: int, storage: Width): int {
    var count := 3600 / storage;
    seriesEnd - (if count < 1 then 1 else count) * storage
  }

  // The series ends on the grid, so it starts there, and its last bucket closed a flush interval ago and not
  // a whole bucket earlier than that.
  lemma SeriesSettled(now: int, width: Width, flushMinutes: int, count: nat)
    requires now >= flushMinutes * 60
    ensures var end := SeriesEnd(now, width, flushMinutes);
      && end <= now - flushMinutes * 60 < end + width
      && OnGrid(end - count * width, width)
  {
    var end := SeriesEnd(now, width, flushMinutes);
    DisplayOnGrid(now - flushMinutes * 60, width);
    StartGrid(end - count * width, count, width);
  }

  // The latency window is a whole number of storage buckets, and the longest such that fits an hour if any does.
  lemma LatencyWindow(seriesEnd: int, storage: Width)
    ensures var length := seriesEnd - LatencyStart(seriesEnd, storage);
      && OnGrid(length, storage)
      && (if storage <= 3600 then length <= 3600 < length + storage else length == storage)
  {
    var count := 3600 / storage;
    assert 3600 == storage * count + 3600 % storage;
    if storage <= 3600 {
      assert count >= 1;
      Multiple(count, storage);
    } else {
      assert count == 0;
      Multiple(1, storage);
    }
  }
}
