/** TableStats of hbase_regionserver_info.py: per (table, metric) datapoints over one cycle, fed
    with the change of every region's counter since the previous cycle. */
module TableStats {
  import opened Wrappers
  import opened Text
  import opened Samples

  // ---------- nested dictionaries ----------

  type Nested<V> = map<string, map<string, V>>

  function Get<V>(m: Nested<V>, table: string, metric: string): Option<V> {
    if table in m && metric in m[table] then Some(m[table][metric]) else None
  }

  function Put<V>(m: Nested<V>, table: string, metric: string, v: V): (r: Nested<V>)
    ensures forall t, k :: Get(r, t, k) == if t == table && k == metric then Some(v) else Get(m, t, k)
  {
    var inner := if table in m then m[table] else map[];
    m[table := inner[metric := v]]
  }

  // ---------- the state ----------

  datatype Reported = Reported(value: real, host: string)

  type Regions = map<string, Reported>

  type Counters = Nested<Regions>

  datatype Stats = Stats(tables: Nested<Datapoint>, curr: Counters, prev: Counters)

  /** One add_stat call. */
  datatype Call = Call(table: string, metric: string, region: string, host: string, value: real)

  predicate IsCount(metric: string) {
    EndsWith(metric, "Count")
  }

  function RegionsOf(m: Counters, table: string, metric: string): Regions {
    match Get(m, table, metric)
    case None => map[]
    case Some(r) => r
  }

  function Lookup(m: Counters, table: string, metric: string, region: string): Option<Reported> {
    var regions := RegionsOf(m, table, metric);
    if region in regions then Some(regions[region]) else None
  }

  /** int(x) on a number: truncation toward zero. */
  function Trunc(x: real): int {
    if x >= 0.0 then x.Floor else -((-x).Floor)
  }

  /** The whole number next to x on the side of zero. */
  lemma TruncTowardZero(x: real)
    ensures x >= 0.0 ==> Trunc(x) as real <= x < Trunc(x) as real + 1.0
    ensures x <= 0.0 ==> Trunc(x) as real - 1.0 < x <= Trunc(x) as real
  {
  }

  lemma IsCountIff(metric: string)
    ensures IsCount(metric) <==> exists kind :: metric == kind + "Count"
  {
    EndsWithIff(metric, "Count");
  }

  function AbsInt(x: int): nat { if x < 0 then -x else x }

  /** What add_state returns: the change since the previous cycle, for a known region. */
  function Sample(prev: Counters, c: Call): real {
    if !IsCount(c.metric) then c.value
    else match Lookup(prev, c.table, c.metric, c.region)
      case None => c.value
      case Some(p) => AbsInt(Trunc(c.value) - Trunc(p.value)) as real
  }

  function AddState(s: Stats, c: Call): Stats {
    if !IsCount(c.metric) then s
    else
      var regions := RegionsOf(s.curr, c.table, c.metric)[c.region := Reported(c.value, c.host)];
      s.(curr := Put(s.curr, c.table, c.metric, regions))
  }

  function AddPoint(tables: Nested<Datapoint>, c: Call, v: real): Nested<Datapoint> {
    match Get(tables, c.table, c.metric)
    case None => Put(tables, c.table, c.metric, First(v))
    case Some(d) => Put(tables, c.table, c.metric, Update(d, v))
  }

  function AddStat(s: Stats, c: Call): Stats {
    AddState(s, c).(tables := AddPoint(s.tables, c, Sample(s.prev, c)))
  }

  function AddAll(s: Stats, calls: seq<Call>): Stats {
    if calls == [] then s else AddStat(AddAll(s, calls[..|calls| - 1]), calls[|calls| - 1])
  }

  // ---------- what the state stands for ----------

  predicate OnPair(c: Call, table: string, metric: string) {
    c.table == table && c.metric == metric
  }

  /** The calls for one (table, metric), in order. */
  function CallsFor(calls: seq<Call>, table: string, metric: string): seq<Call> {
    if calls == [] then []
    else
      var last := calls[|calls| - 1];
      CallsFor(calls[..|calls| - 1], table, metric) + if OnPair(last, table, metric) then [last] else []
  }

  function SamplesOf(prev: Counters, calls: seq<Call>): (r: seq<real>)
    ensures |r| == |calls| && forall i :: 0 <= i < |r| ==> r[i] == Sample(prev, calls[i])
  {
    seq(|calls|, i requires 0 <= i < |calls| => Sample(prev, calls[i]))
  }

  /** The last raw value reported for a region of a counter. */
  function LastRaw(calls: seq<Call>, table: string, metric: string, region: string): Option<Reported> {
    if calls == [] then None
    else
      var last := calls[|calls| - 1];
      if IsCount(metric) && OnPair(last, table, metric) && last.region == region
      then Some(Reported(last.value, last.host))
      else LastRaw(calls[..|calls| - 1], table, metric, region)
  }

  function OrElse<T>(a: Option<T>, b: Option<T>): Option<T> {
    if a.Some? then a else b
  }

  lemma FoldSnoc(xs: seq<real>, v: real)
    ensures Fold(xs + [v]) == if xs == [] then First(v) else Update(Fold(xs), v)
  {
    assert (xs + [v])[..|xs|] == xs;
  }

  lemma SamplesSnoc(prev: Counters, calls: seq<Call>, c: Call)
    ensures SamplesOf(prev, calls + [c]) == SamplesOf(prev, calls) + [Sample(prev, c)]
  {
  }

  lemma {:induction false} TablesFold(s: Stats, calls: seq<Call>, table: string, metric: string)
    requires s.tables == map[]
    ensures var xs := SamplesOf(s.prev, CallsFor(calls, table, metric));
            Get(AddAll(s, calls).tables, table, metric) == if xs == [] then None else Some(Fold(xs))
    decreases |calls|
  {
    if calls != [] {
      var init, last := calls[..|calls| - 1], calls[|calls| - 1];
      TablesFold(s, init, table, metric);
      CurrExact(s, init, table, metric, "");
      var before := CallsFor(init, table, metric);
      if OnPair(last, table, metric) {
        SamplesSnoc(s.prev, before, last);
        FoldSnoc(SamplesOf(s.prev, before), Sample(s.prev, last));
      } else {
        assert before + [] == before;
      }
    }
  }

  /** After any interleaving of calls in a cycle, each datapoint is the exact count, mean, minimum
      and maximum of the values add_state returned for its pair, and pairs without calls have none. */
  lemma {:induction false} TablesExact(s: Stats, calls: seq<Call>, table: string, metric: string)
    requires s.tables == map[]
    ensures var d := Get(AddAll(s, calls).tables, table, metric);
            var xs := SamplesOf(s.prev, CallsFor(calls, table, metric));
            && (d.Some? <==> exists c :: c in calls && OnPair(c, table, metric))
            && (d.Some? ==> Exact(d.value, xs) && d.value == Fold(xs))
  {
    TablesFold(s, calls, table, metric);
    CallsForMembers(calls, table, metric);
    var xs := SamplesOf(s.prev, CallsFor(calls, table, metric));
    if xs != [] {
      FoldExact(xs);
      assert CallsFor(calls, table, metric)[0] in calls;
    }
  }

  lemma {:induction false} CallsForMembers(calls: seq<Call>, table: string, metric: string)
    ensures forall c :: c in CallsFor(calls, table, metric) <==> c in calls && OnPair(c, table, metric)
  {
    if calls != [] {
      var init, last := calls[..|calls| - 1], calls[|calls| - 1];
      CallsForMembers(init, table, metric);
      assert forall c :: c in calls <==> c in init || c == last;
    }
  }

  lemma {:induction false} CallsForMultiset(calls: seq<Call>, table: string, metric: string, c: Call)
    ensures multiset(CallsFor(calls, table, metric))[c] == if OnPair(c, table, metric) then multiset(calls)[c] else 0
  {
    if calls != [] {
      var init, last := calls[..|calls| - 1], calls[|calls| - 1];
      CallsForMultiset(init, table, metric, c);
      assert calls == init + [last];
      assert multiset(calls) == multiset(init) + multiset{last};
      if !OnPair(last, table, metric) {
        assert CallsFor(calls, table, metric) == CallsFor(init, table, metric);
      }
    }
  }

  lemma SamplesWithout(prev: Counters, calls: seq<Call>, i: nat)
    requires i < |calls|
    ensures multiset(SamplesOf(prev, calls))
         == multiset(SamplesOf(prev, Drop(calls, i))) + multiset{Sample(prev, calls[i])}
  {
    var xs := SamplesOf(prev, calls);
    assert Drop(xs, i) == SamplesOf(prev, Drop(calls, i));
    assert xs[i] in multiset(xs);
    DropMultiset(xs, i);
  }

  lemma {:induction false} SamplesOfPermutation(prev: Counters, a: seq<Call>, b: seq<Call>)
    requires multiset(a) == multiset(b)
    ensures multiset(SamplesOf(prev, a)) == multiset(SamplesOf(prev, b))
    decreases |a|
  {
    if a == [] {
      assert |multiset(b)| == 0;
    } else {
      assert a[0] in multiset(b);
      var i :| 0 <= i < |b| && b[i] == a[0];
      DropMultiset(a, 0);
      DropMultiset(b, i);
      SamplesOfPermutation(prev, Drop(a, 0), Drop(b, i));
      SamplesWithout(prev, a, 0);
      SamplesWithout(prev, b, i);
    }
  }

  /** The datapoints of a cycle depend on which calls were made, not on their order. */
  lemma {:induction false} CallOrderIrrelevant(s: Stats, a: seq<Call>, b: seq<Call>, table: string, metric: string)
    requires s.tables == map[] && multiset(a) == multiset(b)
    ensures Get(AddAll(s, a).tables, table, metric) == Get(AddAll(s, b).tables, table, metric)
  {
    TablesFold(s, a, table, metric);
    TablesFold(s, b, table, metric);
    var ca, cb := CallsFor(a, table, metric), CallsFor(b, table, metric);
    forall c: Call ensures multiset(ca)[c] == multiset(cb)[c] {
      CallsForMultiset(a, table, metric, c);
      CallsForMultiset(b, table, metric, c);
    }
    assert multiset(ca) == multiset(cb);
    SamplesOfPermutation(s.prev, ca, cb);
    var xs, ys := SamplesOf(s.prev, ca), SamplesOf(s.prev, cb);
    assert |xs| == |multiset(xs)| == |ys|;
    if xs != [] {
      OrderIrrelevant(xs, ys);
    }
  }

  /** add_stat records the last raw value of every region and never touches prev_state. */
  lemma {:induction false} CurrExact(s: Stats, calls: seq<Call>, table: string, metric: string, region: string)
    ensures AddAll(s, calls).prev == s.prev
    ensures Lookup(AddAll(s, calls).curr, table, metric, region)
         == OrElse(LastRaw(calls, table, metric, region), Lookup(s.curr, table, metric, region))
    decreases |calls|
  {
    if calls != [] {
      CurrExact(s, calls[..|calls| - 1], table, metric, region);
    }
  }

  lemma {:induction false} LastRawAppend(a: seq<Call>, b: seq<Call>, table: string, metric: string, region: string)
    ensures LastRaw(a + b, table, metric, region)
         == OrElse(LastRaw(b, table, metric, region), LastRaw(a, table, metric, region))
  {
    if b == [] {
      assert a + b == a;
    } else {
      assert (a + b)[..|a + b| - 1] == a + b[..|b| - 1];
      LastRawAppend(a, b[..|b| - 1], table, metric, region);
    }
  }

  // ---------- runs of cycles ----------

  /** save_state succeeds, fails before it opened the file, or fails after truncating it. */
  datatype Save = Saved | OpenFailed | WriteFailed

  /** The state file holds a state, or nothing that load_state can read. */
  type StateFile = Option<Counters>

  datatype World = World(stats: Stats, file: StateFile)

  function Load(file: StateFile): Counters {
    match file
    case None => map[]
    case Some(state) => state
  }

  function Start(file: StateFile): World {
    World(Stats(map[], map[], Load(file)), file)
  }

  function SaveState(w: World, save: Save): World {
    match save
    case Saved => World(w.stats.(prev := w.stats.curr, curr := map[]), Some(w.stats.curr))
    case OpenFailed => w
    case WriteFailed => w.(file := None)
  }

  datatype Cycle = Cycle(calls: seq<Call>, save: Save)

  function RunCycle(w: World, c: Cycle): World {
    var v := SaveState(w.(stats := AddAll(w.stats, c.calls)), c.save);
    v.(stats := v.stats.(tables := map[]))
  }

  function RunCycles(w: World, cycles: seq<Cycle>): World {
    if cycles == [] then w else RunCycle(RunCycles(w, cycles[..|cycles| - 1]), cycles[|cycles| - 1])
  }

  /** The calls since the last successful save. */
  function Pending(cycles: seq<Cycle>): seq<Call> {
    if cycles == [] then []
    else
      var init, last := cycles[..|cycles| - 1], cycles[|cycles| - 1];
      if last.save.Saved? then [] else Pending(init) + last.calls
  }

  /** The calls that the last successful save covered; None when there was none. */
  function Covered(cycles: seq<Cycle>): Option<seq<Call>> {
    if cycles == [] then None
    else
      var init, last := cycles[..|cycles| - 1], cycles[|cycles| - 1];
      if last.save.Saved? then Some(Pending(init) + last.calls) else Covered(init)
  }

  ghost predicate IsLastRaw(m: Counters, calls: seq<Call>) {
    forall t, k, r :: Lookup(m, t, k, r) == LastRaw(calls, t, k, r)
  }

  lemma CycleCurr(w: World, calls: seq<Call>, before: seq<Call>)
    requires IsLastRaw(w.stats.curr, before)
    ensures IsLastRaw(AddAll(w.stats, calls).curr, before + calls)
    ensures AddAll(w.stats, calls).prev == w.stats.prev
  {
    forall t, k, r
      ensures Lookup(AddAll(w.stats, calls).curr, t, k, r) == LastRaw(before + calls, t, k, r)
    {
      CurrExact(w.stats, calls, t, k, r);
      LastRawAppend(before, calls, t, k, r);
    }
    CurrExact(w.stats, calls, "", "", "");
  }

  /** In every run of cycles, whatever saves fail: curr_state holds the last raw values since the
      last successful save, and prev_state those which that save covered. */
  lemma {:induction false} CyclesExact(file: StateFile, cycles: seq<Cycle>)
    ensures var w := RunCycles(Start(file), cycles);
            && w.stats.tables == map[]
            && IsLastRaw(w.stats.curr, Pending(cycles))
            && (match Covered(cycles)
                case None => w.stats.prev == Load(file)
                case Some(calls) => IsLastRaw(w.stats.prev, calls))
  {
    if cycles == [] {
    } else {
      var init, last := cycles[..|cycles| - 1], cycles[|cycles| - 1];
      CyclesExact(file, init);
      CycleCurr(RunCycles(Start(file), init), last.calls, Pending(init));
    }
  }

  /** When all saves succeed, prev_state is exactly the last raw values of the cycle before. */
  lemma {:induction false} PrevIsLastCycle(file: StateFile, cycles: seq<Cycle>)
    requires cycles != [] && forall c :: c in cycles ==> c.save.Saved?
    ensures IsLastRaw(RunCycles(Start(file), cycles).stats.prev, cycles[|cycles| - 1].calls)
  {
    CyclesExact(file, cycles);
    var init, last := cycles[..|cycles| - 1], cycles[|cycles| - 1];
    assert last in cycles;
    assert Pending(init) == [] by {
      if init != [] {
        assert init[|init| - 1] in cycles;
      }
    }
    assert [] + last.calls == last.calls;
  }

  /** A restart reads back the very prev_state the process had, unless a save died half-way after
      the last good one. */
  predicate FileGood(cycles: seq<Cycle>) {
    cycles == [] ||
    match cycles[|cycles| - 1].save
    case Saved => true
    case OpenFailed => FileGood(cycles[..|cycles| - 1])
    case WriteFailed => false
  }

  lemma {:induction false} RestartKeepsPrev(file: StateFile, cycles: seq<Cycle>)
    ensures var w := RunCycles(Start(file), cycles);
            if FileGood(cycles) then Start(w.file).stats.prev == w.stats.prev
            else Start(w.file).stats.prev == map[]
  {
    if cycles != [] {
      var init, last := cycles[..|cycles| - 1], cycles[|cycles| - 1];
      RestartKeepsPrev(file, init);
      CurrExact(RunCycles(Start(file), init).stats, last.calls, "", "", "");
    }
  }
}
