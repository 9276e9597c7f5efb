/** What send_metrics puts on the queue, and the TableStats object itself. */
module StatsReport {
  import opened Wrappers
  import opened Samples
  import opened TableStats

  datatype Emission =
    | Delta(table: string, metric: string, value: real)
    | Dev(table: string, metric: string, value: real)
    | Cnt(table: string, metric: string, region: string, host: string, count: int)

  predicate About(e: Emission, table: string, metric: string) {
    e.table == table && e.metric == metric
  }

  /** The emissions for one (table, metric), in order. */
  function Project(out: seq<Emission>, table: string, metric: string): seq<Emission> {
    if out == [] then []
    else (if About(out[0], table, metric) then [out[0]] else []) + Project(out[1..], table, metric)
  }

  lemma {:induction false} ProjectAppend(a: seq<Emission>, b: seq<Emission>, table: string, metric: string)
    ensures Project(a + b, table, metric) == Project(a, table, metric) + Project(b, table, metric)
  {
    if a == [] {
      assert a + b == b;
    } else {
      var head := if About(a[0], table, metric) then [a[0]] else [];
      assert (a + b)[1..] == a[1..] + b;
      ProjectAppend(a[1..], b, table, metric);
      assert head + (Project(a[1..], table, metric) + Project(b, table, metric))
          == (head + Project(a[1..], table, metric)) + Project(b, table, metric);
    }
  }

  lemma {:induction false} ProjectAll(out: seq<Emission>, table: string, metric: string)
    requires forall e :: e in out ==> About(e, table, metric)
    ensures forall t, k :: Project(out, t, k) == if t == table && k == metric then out else []
  {
    if out != [] {
      assert out[0] in out;
      ProjectAll(out[1..], table, metric);
      assert out == [out[0]] + out[1..];
    }
  }

  function CntValue(prev: Regions, region: string, raw: real): int {
    if region in prev then AbsInt(Trunc(raw) - Trunc(prev[region].value)) else Trunc(raw)
  }

  /** The Cnt lines of one pair, in the order of some enumeration of its regions. */
  function CntLines(table: string, metric: string, curr: Regions, prev: Regions, order: seq<string>): seq<Emission>
    requires forall r :: r in order ==> r in curr
    decreases |order|
  {
    if order == [] then []
    else
      var init, r := order[..|order| - 1], order[|order| - 1];
      CntLines(table, metric, curr, prev, init) +
        [Cnt(table, metric, r, curr[r].host, CntValue(prev, r, curr[r].value))]
  }

  ghost predicate Distinct<T(!new)>(xs: seq<T>) {
    forall i, j :: 0 <= i < j < |xs| ==> xs[i] != xs[j]
  }

  ghost predicate Enumerates(order: seq<string>, regions: Regions) {
    Distinct(order) && forall r :: r in order <==> r in regions
  }

  /** Cnt lines are sent for a counter that both states know. */
  predicate Counted(s: Stats, table: string, metric: string) {
    IsCount(metric) && Get(s.curr, table, metric).Some? && Get(s.prev, table, metric).Some?
  }

  /** The report of one pair: delta, dev, then one Cnt per region of the counter. */
  ghost predicate PairReport(rep: seq<Emission>, s: Stats, threshold: real, table: string, metric: string,
      order: seq<string>) {
    var d := Get(s.tables, table, metric);
    var curr, prev := RegionsOf(s.curr, table, metric), RegionsOf(s.prev, table, metric);
    && d.Some?
    && (if Counted(s, table, metric) then Enumerates(order, curr) else order == [])
    && (forall r :: r in order ==> r in curr)
    && rep == [Delta(table, metric, DeltaOf(d.value)), Dev(table, metric, DevOf(d.value, threshold))]
              + CntLines(table, metric, curr, prev, order)
  }

  ghost predicate Reports(out: seq<Emission>, s: Stats, threshold: real, table: string, metric: string) {
    if Get(s.tables, table, metric).Some?
    then exists order :: PairReport(Project(out, table, metric), s, threshold, table, metric, order)
    else Project(out, table, metric) == []
  }

  // ---------- conservation ----------

  function SumOf(order: seq<string>, f: string -> real): real {
    if order == [] then 0.0 else SumOf(order[..|order| - 1], f) + f(order[|order| - 1])
  }

  function Mapped(order: seq<string>, f: string -> real): (r: seq<real>)
    ensures |r| == |order| && forall i :: 0 <= i < |r| ==> r[i] == f(order[i])
  {
    seq(|order|, i requires 0 <= i < |order| => f(order[i]))
  }

  lemma {:induction false} SumMapped(order: seq<string>, f: string -> real)
    ensures Sum(Mapped(order, f)) == SumOf(order, f)
  {
    if order != [] {
      var init := order[..|order| - 1];
      SumMapped(init, f);
      assert Mapped(order, f)[..|order| - 1] == Mapped(init, f);
    }
  }

  lemma MappedWithout(order: seq<string>, i: nat, f: string -> real)
    requires i < |order|
    ensures Drop(Mapped(order, f), i) == Mapped(Drop(order, i), f)
  {
  }

  lemma {:induction false} SumOfDrop(order: seq<string>, i: nat, f: string -> real)
    requires i < |order|
    ensures SumOf(order, f) == SumOf(Drop(order, i), f) + f(order[i])
  {
    SumMapped(order, f);
    SumMapped(Drop(order, i), f);
    MappedWithout(order, i, f);
    SumDrop(Mapped(order, f), i);
  }

  lemma SomeMember(xs: seq<string>) returns (r: string)
    requires xs != []
    ensures r in xs
  {
    r := xs[0];
  }

  /** Two enumerations of the same set have the same sum. */
  lemma {:induction false} SumOfSameSet(a: seq<string>, b: seq<string>, f: string -> real)
    requires Distinct(a) && Distinct(b) && forall r :: r in a <==> r in b
    ensures SumOf(a, f) == SumOf(b, f) && |a| == |b|
    decreases |a|
  {
    if a == [] {
      if b != [] {
        var r := SomeMember(b);
      }
    } else {
      var last := |a| - 1;
      assert a[last] in b;
      var i :| 0 <= i < |b| && b[i] == a[last];
      var init, rest := a[..last], Drop(b, i);
      forall r ensures r in init <==> r in rest {
        DropMembers(b, i, r);
        DropMembers(a, last, r);
        assert Drop(a, last) == init;
      }
      SumOfSameSet(init, rest, f);
      SumOfDrop(b, i, f);
    }
  }

  lemma DropMembers(xs: seq<string>, i: nat, r: string)
    requires i < |xs| && Distinct(xs)
    ensures r in Drop(xs, i) <==> r in xs && r != xs[i]
  {
    if r in xs && r != xs[i] {
      var k :| 0 <= k < |xs| && xs[k] == r;
      assert Drop(xs, i)[if k < i then k else k - 1] == r;
    }
  }

  function RegionsNamed(calls: seq<Call>): (r: seq<string>)
    ensures |r| == |calls| && forall i :: 0 <= i < |r| ==> r[i] == calls[i].region
  {
    seq(|calls|, i requires 0 <= i < |calls| => calls[i].region)
  }

  /** The counts a report carries. */
  function CountsOf(lines: seq<Emission>): int {
    if lines == [] then 0
    else
      var last := lines[|lines| - 1];
      CountsOf(lines[..|lines| - 1]) + if last.Cnt? then last.count else 0
  }

  function CntOf(curr: Regions, prev: Regions): string -> real {
    r => if r in curr then CntValue(prev, r, curr[r].value) as real else 0.0
  }

  lemma {:induction false} CntLinesSum(table: string, metric: string, curr: Regions, prev: Regions, order: seq<string>)
    requires forall r :: r in order ==> r in curr
    ensures CountsOf(CntLines(table, metric, curr, prev, order)) as real == SumOf(order, CntOf(curr, prev))
    ensures |CntLines(table, metric, curr, prev, order)| == |order|
    decreases |order|
  {
    if order != [] {
      var init, r := order[..|order| - 1], order[|order| - 1];
      assert r in order && forall x :: x in init ==> x in order;
      CntLinesSum(table, metric, curr, prev, init);
      var lines := CntLines(table, metric, curr, prev, order);
      assert lines[..|lines| - 1] == CntLines(table, metric, curr, prev, init);
    }
  }

  /** The calls of one pair, each region at most once, and integral where nothing is subtracted. */
  ghost predicate OncePerRegion(prev: Counters, calls: seq<Call>, table: string, metric: string) {
    var mine := CallsFor(calls, table, metric);
    && Distinct(RegionsNamed(mine))
    && forall c :: c in mine && Lookup(prev, table, metric, c.region).None? ==> c.value == Trunc(c.value) as real
  }

  lemma {:induction false} LastRawOfOnly(calls: seq<Call>, table: string, metric: string, c: Call)
    requires IsCount(metric) && c in CallsFor(calls, table, metric)
    requires Distinct(RegionsNamed(CallsFor(calls, table, metric)))
    ensures LastRaw(calls, table, metric, c.region) == Some(Reported(c.value, c.host))
  {
    CallsForMembers(calls, table, metric);
    var init, last := calls[..|calls| - 1], calls[|calls| - 1];
    var before := CallsFor(init, table, metric);
    if OnPair(last, table, metric) {
      var all := CallsFor(calls, table, metric);
      assert all[|all| - 1] == last && all[..|all| - 1] == before;
      if c != last {
        var k :| 0 <= k < |all| && all[k] == c;
        assert RegionsNamed(all)[k] != RegionsNamed(all)[|all| - 1];
        assert before[k] == c;
        assert forall i :: 0 <= i < |before| ==> RegionsNamed(before)[i] == RegionsNamed(all)[i];
        LastRawOfOnly(init, table, metric, c);
      }
    } else {
      assert before + [] == before;
      LastRawOfOnly(init, table, metric, c);
    }
  }

  lemma {:induction false} NoLastRaw(calls: seq<Call>, table: string, metric: string, region: string)
    ensures LastRaw(calls, table, metric, region).Some? ==>
              exists c :: c in CallsFor(calls, table, metric) && c.region == region
  {
    if calls != [] {
      var init, last := calls[..|calls| - 1], calls[|calls| - 1];
      NoLastRaw(init, table, metric, region);
      var all := CallsFor(calls, table, metric);
      if IsCount(metric) && OnPair(last, table, metric) && last.region == region {
        assert all[|all| - 1] == last;
      } else if LastRaw(init, table, metric, region).Some? {
        var c :| c in CallsFor(init, table, metric) && c.region == region;
        assert c in all;
      }
    }
  }

  /** With curr_state empty at the start of the cycle, the Cnt value of a region is the sample its
      only call contributed. */
  lemma CntIsSample(s: Stats, calls: seq<Call>, table: string, metric: string, c: Call)
    requires s.curr == map[] && IsCount(metric)
    requires OncePerRegion(s.prev, calls, table, metric) && c in CallsFor(calls, table, metric)
    ensures var curr := RegionsOf(AddAll(s, calls).curr, table, metric);
            var prev := RegionsOf(s.prev, table, metric);
            c.region in curr && CntOf(curr, prev)(c.region) == Sample(s.prev, c)
  {
    CallsForMembers(calls, table, metric);
    LastRawOfOnly(calls, table, metric, c);
    CurrExact(s, calls, table, metric, c.region);
  }

  lemma RegionsAreCalled(s: Stats, calls: seq<Call>, table: string, metric: string, region: string)
    requires s.curr == map[] && IsCount(metric) && OncePerRegion(s.prev, calls, table, metric)
    ensures region in RegionsOf(AddAll(s, calls).curr, table, metric)
       <==> region in RegionsNamed(CallsFor(calls, table, metric))
  {
    var mine := CallsFor(calls, table, metric);
    CurrExact(s, calls, table, metric, region);
    if region in RegionsNamed(mine) {
      var i :| 0 <= i < |mine| && RegionsNamed(mine)[i] == region;
      assert mine[i] in mine;
      CntIsSample(s, calls, table, metric, mine[i]);
    } else {
      NoLastRaw(calls, table, metric, region);
      forall c | c in mine ensures c.region != region {
        var i :| 0 <= i < |mine| && mine[i] == c;
        assert RegionsNamed(mine)[i] == c.region;
      }
    }
  }

  lemma SamplesAreCnts(s: Stats, calls: seq<Call>, table: string, metric: string)
    requires s.curr == map[] && IsCount(metric) && OncePerRegion(s.prev, calls, table, metric)
    ensures var mine := CallsFor(calls, table, metric);
            var f := CntOf(RegionsOf(AddAll(s, calls).curr, table, metric), RegionsOf(s.prev, table, metric));
            SamplesOf(s.prev, mine) == Mapped(RegionsNamed(mine), f)
  {
    var mine := CallsFor(calls, table, metric);
    var f := CntOf(RegionsOf(AddAll(s, calls).curr, table, metric), RegionsOf(s.prev, table, metric));
    forall i | 0 <= i < |mine| ensures Sample(s.prev, mine[i]) == f(RegionsNamed(mine)[i]) {
      assert mine[i] in mine;
      CntIsSample(s, calls, table, metric, mine[i]);
    }
  }

  /** Conservation between the two outputs: the n Cnt values that send_metrics emits for a counter
      add up to n times the running average that add_stat built from the deltas. */
  lemma {:induction false} Conservation(s: Stats, calls: seq<Call>, threshold: real, table: string, metric: string,
                     rep: seq<Emission>, order: seq<string>)
    requires s.tables == map[] && s.curr == map[] && IsCount(metric)
    requires Get(s.prev, table, metric).Some? && OncePerRegion(s.prev, calls, table, metric)
    requires PairReport(rep, AddAll(s, calls), threshold, table, metric, order)
    ensures var d := Get(AddAll(s, calls).tables, table, metric).value;
            && |rep| == 2 + d.n
            && CountsOf(rep[2..]) as real == d.avg * d.n as real
  {
    var r := AddAll(s, calls);
    var mine := CallsFor(calls, table, metric);
    var curr, prev := RegionsOf(r.curr, table, metric), RegionsOf(s.prev, table, metric);
    var f := CntOf(curr, prev);
    TablesExact(s, calls, table, metric);
    CurrExact(s, calls, table, metric, "");
    CallsForMembers(calls, table, metric);
    assert mine != [];
    CntIsSample(s, calls, table, metric, mine[0]);
    assert Counted(r, table, metric);
    forall region ensures region in order <==> region in RegionsNamed(mine) {
      RegionsAreCalled(s, calls, table, metric, region);
    }
    SumOfSameSet(order, RegionsNamed(mine), f);
    SamplesAreCnts(s, calls, table, metric);
    SumMapped(RegionsNamed(mine), f);
    CntLinesSum(table, metric, curr, prev, order);
    assert rep[2..] == CntLines(table, metric, curr, prev, order);
  }

  // ---------- the loop over all pairs ----------

  lemma {:induction false} CntLinesAbout(table: string, metric: string, curr: Regions, prev: Regions,
      order: seq<string>)
    requires forall r :: r in order ==> r in curr
    ensures forall e :: e in CntLines(table, metric, curr, prev, order) ==> About(e, table, metric)
    decreases |order|
  {
    if order != [] {
      CntLinesAbout(table, metric, curr, prev, order[..|order| - 1]);
    }
  }

  lemma PairLinesAbout(lines: seq<Emission>, s: Stats, threshold: real, table: string, metric: string,
      order: seq<string>)
    requires PairReport(lines, s, threshold, table, metric, order)
    ensures forall t, k :: Project(lines, t, k) == if t == table && k == metric then lines else []
  {
    CntLinesAbout(table, metric, RegionsOf(s.curr, table, metric), RegionsOf(s.prev, table, metric), order);
    ProjectAll(lines, table, metric);
  }

  /** Half-way through the pairs: nothing yet about those to do, full reports about the others. */
  ghost predicate Progress(rep: seq<Emission>, s: Stats, threshold: real, todo: set<(string, string)>) {
    forall t, k :: if (t, k) in todo then Project(rep, t, k) == [] else Reports(rep, s, threshold, t, k)
  }

  function Pairs<V>(m: Nested<V>): (r: set<(string, string)>)
    ensures forall t, k :: (t, k) in r <==> Get(m, t, k).Some?
  {
    set t, k | t in m && k in m[t] :: (t, k)
  }

  lemma NothingYet(s: Stats, threshold: real)
    ensures Progress([], s, threshold, Pairs(s.tables))
  {
  }

  lemma PairKnown(s: Stats, pair: (string, string))
    requires pair in Pairs(s.tables)
    ensures Get(s.tables, pair.0, pair.1).Some?
  {
    assert pair == (pair.0, pair.1);
  }

  lemma ProgressDone(rep: seq<Emission>, s: Stats, threshold: real)
    requires Progress(rep, s, threshold, {})
    ensures forall t, k :: Reports(rep, s, threshold, t, k)
  {
  }

  lemma ProgressStep(rep: seq<Emission>, lines: seq<Emission>, s: Stats, threshold: real,
                     todo: set<(string, string)>, pair: (string, string))
    requires Progress(rep, s, threshold, todo) && pair in todo
    requires exists order :: PairReport(lines, s, threshold, pair.0, pair.1, order)
    ensures Progress(rep + lines, s, threshold, todo - {pair})
  {
    var order :| PairReport(lines, s, threshold, pair.0, pair.1, order);
    PairLinesAbout(lines, s, threshold, pair.0, pair.1, order);
    forall t, k
      ensures if (t, k) in todo - {pair} then Project(rep + lines, t, k) == []
              else Reports(rep + lines, s, threshold, t, k)
    {
      ProjectAppend(rep, lines, t, k);
      if (t, k) == pair {
        assert Project(rep + lines, t, k) == lines;
      } else {
        assert Project(rep + lines, t, k) == Project(rep, t, k);
      }
    }
  }

  // ---------- conservation over a whole cycle ----------

  lemma {:induction false} CountsAppend(a: seq<Emission>, b: seq<Emission>)
    ensures CountsOf(a + b) == CountsOf(a) + CountsOf(b)
    decreases |b|
  {
    if b == [] {
      assert a + b == a;
    } else {
      assert (a + b)[..|a + b| - 1] == a + b[..|b| - 1];
      CountsAppend(a, b[..|b| - 1]);
    }
  }

  lemma NoCountsAhead(rep: seq<Emission>)
    requires |rep| >= 2 && rep[0].Delta? && rep[1].Dev?
    ensures CountsOf(rep) == CountsOf(rep[2..])
  {
    assert rep == [rep[0], rep[1]] + rep[2..];
    CountsAppend([rep[0], rep[1]], rep[2..]);
    assert [rep[0], rep[1]][..1] == [rep[0]] && CountsOf([rep[0]]) == 0;
  }

  /** Whatever else is emitted in a cycle: the Cnt values emitted for a counter add up to the changes
      that add_stat was called with, and there is one per call beside delta and dev. */
  lemma {:induction false} CycleConserves(s: Stats, calls: seq<Call>, threshold: real, out: seq<Emission>,
                                          table: string, metric: string)
    requires s.tables == map[] && s.curr == map[] && IsCount(metric)
    requires Get(s.prev, table, metric).Some? && OncePerRegion(s.prev, calls, table, metric)
    requires Reports(out, AddAll(s, calls), threshold, table, metric)
    ensures var rep, mine := Project(out, table, metric), CallsFor(calls, table, metric);
            && CountsOf(rep) as real == Sum(SamplesOf(s.prev, mine))
            && |rep| == if mine == [] then 0 else |mine| + 2
  {
    var rep, mine := Project(out, table, metric), CallsFor(calls, table, metric);
    TablesExact(s, calls, table, metric);
    CallsForMembers(calls, table, metric);
    if Get(AddAll(s, calls).tables, table, metric).Some? {
      var order :| PairReport(rep, AddAll(s, calls), threshold, table, metric, order);
      Conservation(s, calls, threshold, table, metric, rep, order);
      NoCountsAhead(rep);
    } else {
      NoneForPair(calls, table, metric);
    }
  }

  lemma {:induction false} NoneForPair(calls: seq<Call>, table: string, metric: string)
    requires forall c :: c in calls ==> !OnPair(c, table, metric)
    ensures CallsFor(calls, table, metric) == []
  {
    if calls != [] {
      NoneForPair(calls[..|calls| - 1], table, metric);
    }
  }

  /** The change of a region since the calls that a save covered. */
  function ChangeSince(covered: seq<Call>, c: Call): real {
    match LastRaw(covered, c.table, c.metric, c.region)
    case None => c.value
    case Some(p) =>
      var now, before := Trunc(c.value), Trunc(p.value);
      (if now < before then before - now else now - before) as real
  }

  function Changes(covered: seq<Call>, calls: seq<Call>): (r: seq<real>)
    ensures |r| == |calls| && forall i :: 0 <= i < |r| ==> r[i] == ChangeSince(covered, calls[i])
  {
    seq(|calls|, i requires 0 <= i < |calls| => ChangeSince(covered, calls[i]))
  }

  /** Each region of the pair reported at most once, and integral where it was not reported before. */
  ghost predicate OncePerCycle(covered: seq<Call>, calls: seq<Call>, table: string, metric: string) {
    var mine := CallsFor(calls, table, metric);
    && Distinct(RegionsNamed(mine))
    && forall c :: c in mine && LastRaw(covered, table, metric, c.region).None? ==> c.value == Trunc(c.value) as real
  }

  lemma {:induction false} AfterSave(file: StateFile, cycles: seq<Cycle>)
    requires cycles != [] && cycles[|cycles| - 1].save.Saved?
    ensures var w, covered := RunCycles(Start(file), cycles), Covered(cycles);
            && w.stats.tables == map[] && w.stats.curr == map[]
            && covered.Some? && IsLastRaw(w.stats.prev, covered.value)
  {
    CyclesExact(file, cycles);
  }

  /** In every run, after a cycle whose save succeeded: the Cnt values that the next send_metrics emits
      for a counter add up to the changes of its regions since the values that save covered. */
  lemma {:induction false} RunConserves(file: StateFile, cycles: seq<Cycle>, calls: seq<Call>, threshold: real,
                                        out: seq<Emission>, table: string, metric: string)
    requires cycles != [] && cycles[|cycles| - 1].save.Saved? && IsCount(metric)
    requires Get(RunCycles(Start(file), cycles).stats.prev, table, metric).Some?
    requires Covered(cycles).Some? && OncePerCycle(Covered(cycles).value, calls, table, metric)
    requires Reports(out, AddAll(RunCycles(Start(file), cycles).stats, calls), threshold, table, metric)
    ensures CountsOf(Project(out, table, metric)) as real
         == Sum(Changes(Covered(cycles).value, CallsFor(calls, table, metric)))
  {
    var s, covered, mine := RunCycles(Start(file), cycles).stats, Covered(cycles).value, CallsFor(calls, table, metric);
    AfterSave(file, cycles);
    CallsForMembers(calls, table, metric);
    CycleConserves(s, calls, threshold, out, table, metric);
    SamplesAreChanges(s.prev, covered, mine, table, metric);
  }

  lemma SamplesAreChanges(prev: Counters, covered: seq<Call>, mine: seq<Call>, table: string, metric: string)
    requires IsLastRaw(prev, covered) && IsCount(metric) && forall c :: c in mine ==> OnPair(c, table, metric)
    ensures SamplesOf(prev, mine) == Changes(covered, mine)
  {
    forall i | 0 <= i < |mine| ensures Sample(prev, mine[i]) == ChangeSince(covered, mine[i]) {
      assert mine[i] in mine;
    }
  }

  // ---------- the lines of a cycle ----------

  /** The first two lines about a pair: the largest deviation of its samples from their mean, and the
      same in units of the mean when it is above the threshold. */
  ghost predicate SkewLines(rep: seq<Emission>, samples: seq<real>, threshold: real, table: string, metric: string) {
    && |rep| >= 2 && rep[0].Delta? && rep[1].Dev?
    && rep[0].table == rep[1].table == table && rep[0].metric == rep[1].metric == metric
    && exists mean :: SkewOf(mean, rep[0].value, rep[1].value, samples, threshold)
  }

  ghost predicate SkewOf(mean: real, delta: real, dev: real, samples: seq<real>, threshold: real) {
    && mean * |samples| as real == Sum(samples)
    && (exists x :: x in samples && (x - mean == delta || mean - x == delta))
    && (forall x :: x in samples ==> -delta <= x - mean <= delta)
    && if mean > 0.001 && Deviates(samples, mean, threshold) then dev * mean == delta else dev == 0.0
  }

  /** Every pair that was called in a cycle gets those two lines, and only a counter that prev_state
      knows gets more: then one per region. */
  lemma {:induction false} CycleReports(s: Stats, calls: seq<Call>, threshold: real, out: seq<Emission>,
                                        table: string, metric: string)
    requires s.tables == map[] && Reports(out, AddAll(s, calls), threshold, table, metric)
    ensures var rep, mine := Project(out, table, metric), CallsFor(calls, table, metric);
            && (mine == [] ==> rep == [])
            && (mine != [] ==> SkewLines(rep, SamplesOf(s.prev, mine), threshold, table, metric))
            && (|rep| > 2 ==> (exists kind :: metric == kind + "Count") && Get(s.prev, table, metric).Some?)
  {
    var rep, mine, r := Project(out, table, metric), CallsFor(calls, table, metric), AddAll(s, calls);
    TablesExact(s, calls, table, metric);
    CallsForMembers(calls, table, metric);
    CurrExact(s, calls, table, metric, "");
    IsCountIff(metric);
    if Get(r.tables, table, metric).Some? {
      var order :| PairReport(rep, r, threshold, table, metric, order);
      var d := Get(r.tables, table, metric).value;
      PairSize(rep, r, threshold, table, metric, order);
      SkewFromPair(d, SamplesOf(s.prev, mine), threshold);
      assert SkewOf(d.avg, rep[0].value, rep[1].value, SamplesOf(s.prev, mine), threshold);
    } else {
      NoneForPair(calls, table, metric);
    }
  }

  lemma SkewFromPair(d: Datapoint, samples: seq<real>, threshold: real)
    requires Exact(d, samples)
    ensures SkewOf(d.avg, DeltaOf(d), DevOf(d, threshold), samples, threshold)
  {
    DeltaIsLargestDeviation(d, samples);
    DevExact(d, samples, threshold);
  }

  lemma PairSize(rep: seq<Emission>, s: Stats, threshold: real, table: string, metric: string, order: seq<string>)
    requires PairReport(rep, s, threshold, table, metric, order)
    ensures |rep| == 2 + |order| && (order != [] ==> Counted(s, table, metric))
    ensures rep[0] == Delta(table, metric, DeltaOf(Get(s.tables, table, metric).value))
    ensures rep[1] == Dev(table, metric, DevOf(Get(s.tables, table, metric).value, threshold))
  {
    CntLinesSum(table, metric, RegionsOf(s.curr, table, metric), RegionsOf(s.prev, table, metric), order);
  }

  /** What the statistics of a cycle after a save are about: the changes since that save for a counter,
      the values themselves for any other metric. */
  lemma RunSamples(file: StateFile, cycles: seq<Cycle>, calls: seq<Call>, table: string, metric: string)
    requires cycles != [] && cycles[|cycles| - 1].save.Saved?
    ensures var mine := CallsFor(calls, table, metric);
            var samples := SamplesOf(RunCycles(Start(file), cycles).stats.prev, mine);
            && Covered(cycles).Some?
            && if exists kind :: metric == kind + "Count" then samples == Changes(Covered(cycles).value, mine)
               else forall i :: 0 <= i < |samples| ==> samples[i] == mine[i].value
  {
    var mine, prev := CallsFor(calls, table, metric), RunCycles(Start(file), cycles).stats.prev;
    AfterSave(file, cycles);
    CallsForMembers(calls, table, metric);
    IsCountIff(metric);
    if IsCount(metric) {
      SamplesAreChanges(prev, Covered(cycles).value, mine, table, metric);
    } else {
      forall i | 0 <= i < |mine| ensures SamplesOf(prev, mine)[i] == mine[i].value {
        assert mine[i] in mine;
      }
    }
  }

  lemma {:induction false} CntLineOf(table: string, metric: string, curr: Regions, prev: Regions, order: seq<string>,
      region: string)
    requires (forall r :: r in order ==> r in curr) && region in order
    ensures Cnt(table, metric, region, curr[region].host, CntValue(prev, region, curr[region].value))
         in CntLines(table, metric, curr, prev, order)
    decreases |order|
  {
    if order[|order| - 1] != region {
      CntLineOf(table, metric, curr, prev, order[..|order| - 1], region);
    }
  }

  /** Each region called for a counter has its line, with the host of the call and the change. */
  lemma {:induction false} RunCounts(file: StateFile, cycles: seq<Cycle>, calls: seq<Call>, threshold: real,
                                     out: seq<Emission>, c: Call)
    requires cycles != [] && cycles[|cycles| - 1].save.Saved? && IsCount(c.metric) && c in calls
    requires Get(RunCycles(Start(file), cycles).stats.prev, c.table, c.metric).Some?
    requires Covered(cycles).Some? && OncePerCycle(Covered(cycles).value, calls, c.table, c.metric)
    requires Reports(out, AddAll(RunCycles(Start(file), cycles).stats, calls), threshold, c.table, c.metric)
    ensures exists count :: Cnt(c.table, c.metric, c.region, c.host, count) in Project(out, c.table, c.metric)
                         && count as real == ChangeSince(Covered(cycles).value, c)
  {
    var s, rep := RunCycles(Start(file), cycles).stats, Project(out, c.table, c.metric);
    AfterSave(file, cycles);
    TablesExact(s, calls, c.table, c.metric);
    CallsForMembers(calls, c.table, c.metric);
    SamplesAreChanges(s.prev, Covered(cycles).value, [c], c.table, c.metric);
    assert SamplesOf(s.prev, [c])[0] == ChangeSince(Covered(cycles).value, c);
    CountFor(s, calls, threshold, rep, c);
  }

  lemma CountFor(s: Stats, calls: seq<Call>, threshold: real, rep: seq<Emission>, c: Call)
    requires s.tables == map[] && s.curr == map[] && IsCount(c.metric) && c in CallsFor(calls, c.table, c.metric)
    requires Get(s.prev, c.table, c.metric).Some? && OncePerRegion(s.prev, calls, c.table, c.metric)
    requires Get(AddAll(s, calls).tables, c.table, c.metric).Some?
    requires exists order :: PairReport(rep, AddAll(s, calls), threshold, c.table, c.metric, order)
    ensures exists count :: Cnt(c.table, c.metric, c.region, c.host, count) in rep && count as real == Sample(s.prev, c)
  {
    var r := AddAll(s, calls);
    var order :| PairReport(rep, r, threshold, c.table, c.metric, order);
    var curr, prev := RegionsOf(r.curr, c.table, c.metric), RegionsOf(s.prev, c.table, c.metric);
    CntIsSample(s, calls, c.table, c.metric, c);
    CurrExact(s, calls, c.table, c.metric, c.region);
    LastRawOfOnly(calls, c.table, c.metric, c);
    CntLineOf(c.table, c.metric, curr, prev, order, c.region);
    var count := CntValue(prev, c.region, curr[c.region].value);
    assert Cnt(c.table, c.metric, c.region, c.host, count) in rep;
  }

  // ---------- the TableStats object ----------

  class TableStatsObject {
    const threshold: real
    var tables: Nested<Datapoint>
    var prevState: Counters
    var currState: Counters
    var stateFile: StateFile
    var out: seq<Emission>

    ghost function State(): World
      reads this
    {
      World(Stats(tables, currState, prevState), stateFile)
    }

    constructor (file: StateFile, threshold: real)
      ensures State() == Start(file) && out == [] && this.threshold == threshold
    {
      this.threshold := threshold;
      tables, prevState, currState, out := map[], map[], map[], [];
      stateFile := file;
      new;
      if stateFile.Some? {
        prevState := stateFile.value;
      }
    }

    method AddState(table: string, metric: string, region: string, host: string, value: real) returns (v: real)
      modifies this`currState
      ensures var c := Call(table, metric, region, host, value);
              v == Sample(prevState, c) && State().stats == TableStats.AddState(old(State().stats), c)
    {
      if !IsCount(metric) {
        return value;
      }
      var metrics := if table in currState then currState[table] else map[];
      var regions := if metric in metrics then metrics[metric] else map[];
      regions := regions[region := Reported(value, host)];
      currState := currState[table := metrics[metric := regions]];

      metrics := if table in prevState then prevState[table] else map[];
      regions := if metric in metrics then metrics[metric] else map[];
      if region in regions {
        return AbsInt(Trunc(value) - Trunc(regions[region].value)) as real;
      }
      return value;
    }

    method AddStat(table: string, metric: string, region: string, host: string, value: real)
      modifies this`currState, this`tables
      ensures State().stats == TableStats.AddStat(old(State().stats), Call(table, metric, region, host, value))
    {
      var v := AddState(table, metric, region, host, value);
      var metrics := if table in tables then tables[table] else map[];
      assert metric in metrics <==> Get(tables, table, metric).Some?;
      if metric in metrics {
        var d := metrics[metric];
        var avg := Mean(d.avg, d.n, v);
        d := Datapoint(d.n + 1, avg, Min(d.min, v), Max(d.max, v));
        assert d == Update(metrics[metric], v);
        metrics := metrics[metric := d];
      } else {
        metrics := metrics[metric := Datapoint(1, v, v, v)];
        assert metrics[metric] == First(v);
      }
      tables := tables[table := metrics];
      assert metrics == AddPoint(old(tables), Call(table, metric, region, host, value), v)[table];
    }

    /** The Cnt lines of one counter: the regions in whatever order the dictionary gives them. */
    method CountRegions(table: string, metric: string, curr: Regions, prev: Regions)
      returns (lines: seq<Emission>)
      ensures exists order :: Enumerates(order, curr) && lines == CntLines(table, metric, curr, prev, order)
    {
      lines := [];
      ghost var order: seq<string> := [];
      var todo := curr.Keys;
      while todo != {}
        invariant todo <= curr.Keys
        invariant Distinct(order) && forall r :: r in order <==> r in curr && r !in todo
        invariant lines == CntLines(table, metric, curr, prev, order)
        decreases todo
      {
        var region :| region in todo;
        var cnt: int;
        if region in prev {
          cnt := AbsInt(Trunc(curr[region].value) - Trunc(prev[region].value));
        } else {
          cnt := Trunc(curr[region].value);
        }
        ghost var next := order + [region];
        assert next[..|order|] == order;
        lines := lines + [Cnt(table, metric, region, curr[region].host, cnt)];
        order := next;
        todo := todo - {region};
      }
    }

    /** The delta and dev lines of one pair. */
    method StatLines(table: string, metric: string, d: Datapoint) returns (lines: seq<Emission>)
      ensures lines == [Delta(table, metric, DeltaOf(d)), Dev(table, metric, DevOf(d, threshold))]
    {
      var val := Max(Abs(d.max - d.avg), Abs(d.avg - d.min));
      lines := [Delta(table, metric, val)];
      if d.avg > 0.001 && val > threshold {
        lines := lines + [Dev(table, metric, val / Abs(d.avg))];
      } else {
        lines := lines + [Dev(table, metric, 0.0)];
      }
    }

    /** One turn of the inner loop of send_metrics. */
    method SendPair(table: string, metric: string) returns (ghost rep: seq<Emission>)
      requires Get(tables, table, metric).Some?
      modifies this`out
      ensures out == old(out) + rep
      ensures exists order :: PairReport(rep, State().stats, threshold, table, metric, order)
    {
      var lines := StatLines(table, metric, tables[table][metric]);
      ghost var order: seq<string> := [];
      var counts: seq<Emission> := [];
      if IsCount(metric) && table in currState && metric in currState[table]
         && table in prevState && metric in prevState[table] {
        var curr, prev := currState[table][metric], prevState[table][metric];
        counts := CountRegions(table, metric, curr, prev);
        order :| Enumerates(order, curr) && counts == CntLines(table, metric, curr, prev, order);
      }
      out := out + (lines + counts);
      rep := lines + counts;
      assert PairReport(rep, State().stats, threshold, table, metric, order);
    }

    method SaveState(save: Save)
      modifies this`stateFile, this`prevState, this`currState
      ensures State() == TableStats.SaveState(old(State()), save)
    {
      match save {
        case OpenFailed =>
        case WriteFailed => stateFile := None;
        case Saved =>
          stateFile := Some(currState);
          prevState := currState;
          currState := map[];
      }
    }

    method SendNext(pair: (string, string), ghost rep: seq<Emission>, ghost todo: set<(string, string)>)
      returns (ghost more: seq<Emission>)
      requires pair in todo && todo <= Pairs(tables) && Progress(rep, State().stats, threshold, todo)
      modifies this`out
      ensures rep <= more && out == old(out) + more[|rep|..]
      ensures Progress(more, State().stats, threshold, todo - {pair})
    {
      PairKnown(State().stats, pair);
      ghost var lines := SendPair(pair.0, pair.1);
      ProgressStep(rep, lines, State().stats, threshold, todo, pair);
      more := rep + lines;
    }

    /** The outer and inner loops of send_metrics over every pair, in any order. */
    method SendPairs() returns (ghost rep: seq<Emission>)
      modifies this`out
      ensures out == old(out) + rep
      ensures forall t, k :: Reports(rep, State().stats, threshold, t, k)
    {
      rep := [];
      ghost var s := State().stats;
      var todo := Pairs(tables);
      NothingYet(s, threshold);
      while todo != {}
        invariant out == old(out) + rep
        invariant todo <= Pairs(s.tables)
        invariant Progress(rep, s, threshold, todo)
        decreases todo
      {
        var pair :| pair in todo;
        ghost var before := rep;
        rep := SendNext(pair, before, todo);
        assert rep == before + rep[|before|..];
        todo := todo - {pair};
      }
      ProgressDone(rep, s, threshold);
    }

    /** Every pair is reported once, the state is saved, and the tables are cleared. */
    method SendMetrics(save: Save) returns (ghost rep: seq<Emission>)
      modifies this
      ensures out == old(out) + rep
      ensures forall t, k :: Reports(rep, old(State().stats), threshold, t, k)
      ensures State() == RunCycle(old(State()), Cycle([], save))
    {
      rep := SendPairs();
      SaveState(save);
      tables := map[];
    }
  }
}
