/** The main loop of um_daemon.py over the outcomes of its iterations; instants are seconds. */
module UmDaemon {
  import opened Wrappers

  const DAY := 86400
  const BACK := 128

  /** The largest lag of a change, in whole seconds, that the windows make up for. */
  const OVERLAP := 130

  /** What one iteration meets: whether UpdateManager() could be built, the database clock (None
      when the query raises), the exit code of run() (None when it raises), and whether the
      reload that follows works. */
  datatype Iteration = Iteration(managerBuilt: bool, clock: Option<int>, exitCode: Option<int>, reloaded: bool)

  datatype Window = Window(fromTime: int, toTime: int)

  datatype State = State(count: nat, tokenReloads: nat, last: int, windows: seq<Window>)

  function Initial(now: int): State {
    State(0, 0, now - DAY, [])
  }

  /** run() was called and returned 0. */
  predicate Succeeded(i: Iteration) {
    i.managerBuilt && i.clock.Some? && i.exitCode == Some(0)
  }

  /** `windows` records the successful iterations; only they move `last`. */
  function Step(s: State, i: Iteration): State {
    var t := s.(count := s.count + 1, tokenReloads := s.tokenReloads + if s.count % 100 == 0 then 1 else 0);
    if !Succeeded(i) then t
    else t.(last := i.clock.value - 1, windows := s.windows + [Window(s.last - BACK, i.clock.value)])
  }

  function RunAll(now: int, iterations: seq<Iteration>): State {
    if iterations == [] then Initial(now)
    else Step(RunAll(now, iterations[..|iterations| - 1]), iterations[|iterations| - 1])
  }

  /** The loop, stopped after the given iterations. */
  method MainLoop(now: int, iterations: seq<Iteration>)
    returns (count: nat, reloads: nat, last: int, windows: seq<Window>)
    ensures State(count, reloads, last, windows) == RunAll(now, iterations)
  {
    count, reloads, last, windows := 0, 0, now - DAY, [];
    for k := 0 to |iterations|
      invariant State(count, reloads, last, windows) == RunAll(now, iterations[..k])
    {
      var i := iterations[k];
      assert iterations[..k + 1][..k] == iterations[..k];
      if count % 100 == 0 {
        reloads := reloads + 1;
      }
      count := count + 1;
      if !i.managerBuilt {
        continue;
      }
      var fromTime := last - BACK;
      if i.clock.None? {
        continue;
      }
      var toTime := i.clock.value;
      if i.exitCode.None? {
        continue;
      }
      if i.exitCode.value == 0 {
        last := toTime - 1;
        windows := windows + [Window(fromTime, toTime)];
      }
      if !i.reloaded {
        continue;
      }
    }
    assert iterations[..|iterations|] == iterations;
  }

  // ---------- which iterations open a window ----------

  /** The database clocks of the iterations that built the manager, read the clock and saw run()
      return 0, in order. */
  function Clocks(iterations: seq<Iteration>): seq<int> {
    if iterations == [] then []
    else
      var last := iterations[|iterations| - 1];
      Clocks(iterations[..|iterations| - 1]) +
      if last.managerBuilt && last.clock.Some? && last.exitCode == Some(0) then [last.clock.value] else []
  }

  /** An iteration that fails before run(), or whose run() raises or returns another code, leaves
      lastHourDateTime alone and opens no window. */
  lemma FailedKeeps(now: int, iterations: seq<Iteration>, i: Iteration)
    requires !i.managerBuilt || i.clock.None? || i.exitCode != Some(0)
    ensures var before, after := RunAll(now, iterations), RunAll(now, iterations + [i]);
            after.last == before.last && after.windows == before.windows
  {
    assert (iterations + [i])[..|iterations|] == iterations;
  }

  /** One whose run() returns 0 opens one window and moves lastHourDateTime, whether or not the reload
      that follows works. */
  lemma SuccessOpens(now: int, iterations: seq<Iteration>, clock: int, reloaded: bool)
    ensures var before := RunAll(now, iterations);
            var after := RunAll(now, iterations + [Iteration(true, Some(clock), Some(0), reloaded)]);
            after.last == clock - 1 && after.windows == before.windows + [Window(before.last - 128, clock)]
  {
    assert (iterations + [Iteration(true, Some(clock), Some(0), reloaded)])[..|iterations|] == iterations;
  }

  /** One day and 128 s before the start, or 129 s before the k-th end. */
  function StartAfter(now: int, ends: seq<int>, k: nat): int
    requires k <= |ends|
  {
    if k == 0 then now - 86528 else ends[k - 1] - 129
  }

  /** The windows of any run: one per successful iteration, ending at its clock and starting 129 s before
      the end of the one before it. */
  lemma {:induction false} WindowsExact(now: int, iterations: seq<Iteration>)
    ensures var s, ts := RunAll(now, iterations), Clocks(iterations);
            && |s.windows| == |ts|
            && (forall k :: 0 <= k < |ts| ==> s.windows[k] == Window(StartAfter(now, ts, k), ts[k]))
            && s.last == if ts == [] then now - 86400 else ts[|ts| - 1] - 1
    decreases |iterations|
  {
    if iterations != [] {
      var init, last := iterations[..|iterations| - 1], iterations[|iterations| - 1];
      WindowsExact(now, init);
      if Succeeded(last) {
        assert Clocks(iterations)[..|Clocks(init)|] == Clocks(init);
      }
    }
  }

  /** Failing iterations, and whether a reload works, never matter to what is asked for. */
  lemma FailuresIrrelevant(now: int, one: seq<Iteration>, other: seq<Iteration>)
    requires Clocks(one) == Clocks(other)
    ensures RunAll(now, one).last == RunAll(now, other).last
    ensures RunAll(now, one).windows == RunAll(now, other).windows
  {
    WindowsExact(now, one);
    WindowsExact(now, other);
    var a, b := RunAll(now, one).windows, RunAll(now, other).windows;
    assert forall k :: 0 <= k < |a| ==> a[k] == b[k];
  }

  /** The tokens are renewed in every hundredth iteration from the first on, also in a failing one. */
  lemma {:induction false} TokenReloads(now: int, iterations: seq<Iteration>)
    ensures var s := RunAll(now, iterations);
            s.count == |iterations| && s.tokenReloads == (|iterations| + 99) / 100
    decreases |iterations|
  {
    if iterations != [] {
      TokenReloads(now, iterations[..|iterations| - 1]);
    }
  }

  // ---------- coverage ----------

  predicate InWindow(t: int, w: Window) {
    w.fromTime <= t <= w.toTime
  }

  ghost predicate Covered(t: int, windows: seq<Window>) {
    exists k :: 0 <= k < |windows| && InWindow(t, windows[k])
  }

  function StartOf(now: int): int {
    now - DAY - BACK
  }

  /** The latest end of any window. */
  function Latest(windows: seq<Window>): int
    requires windows != []
  {
    var last := windows[|windows| - 1].toTime;
    if |windows| == 1 then last
    else
      var before := Latest(windows[..|windows| - 1]);
      if last > before then last else before
  }

  lemma LatestMore(windows: seq<Window>, w: Window)
    ensures Latest(windows + [w])
         == if windows == [] || w.toTime > Latest(windows) then w.toTime else Latest(windows)
  {
    assert (windows + [w])[..|windows|] == windows;
  }

  /** Where the next window starts: at the start, or 129 s before the end of the last one. */
  ghost predicate Linked(now: int, s: State) {
    s.last == if s.windows == [] then now - DAY else s.windows[|s.windows| - 1].toTime - 1
  }

  lemma {:induction false} AlwaysLinked(now: int, iterations: seq<Iteration>)
    ensures Linked(now, RunAll(now, iterations))
  {
    if iterations != [] {
      AlwaysLinked(now, iterations[..|iterations| - 1]);
    }
  }

  lemma {:induction false} LatestIsLast(windows: seq<Window>, k: nat)
    requires k < |windows|
    ensures windows[k].toTime <= Latest(windows)
  {
    if |windows| > 1 && k < |windows| - 1 {
      LatestIsLast(windows[..|windows| - 1], k);
    }
  }

  /** Some window starts before the instant and ends at least `lag` after it. */
  ghost predicate CoveredFor(t: int, lag: nat, windows: seq<Window>) {
    exists k :: 0 <= k < |windows| && Spans(t, lag, windows[k])
  }

  predicate Spans(t: int, lag: nat, w: Window) {
    w.fromTime <= t && t + lag <= w.toTime
  }

  lemma CoveredForMore(t: int, lag: nat, windows: seq<Window>, w: Window)
    requires CoveredFor(t, lag, windows) || Spans(t, lag, w)
    ensures CoveredFor(t, lag, windows + [w])
  {
    var all := windows + [w];
    if Spans(t, lag, w) {
      assert all[|windows|] == w;
    } else {
      var k :| 0 <= k < |windows| && Spans(t, lag, windows[k]);
      assert all[k] == windows[k];
    }
  }

  /** What the overlap is for, whatever fails and however the clock jumps: an instant after the start
      is in a window that ends up to 130 s after it, as soon as any window ends then. */
  lemma {:induction false} NoLagGap(now: int, iterations: seq<Iteration>, t: int, lag: nat)
    requires lag <= OVERLAP && RunAll(now, iterations).windows != []
    requires StartOf(now) <= t && t + lag <= Latest(RunAll(now, iterations).windows)
    ensures CoveredFor(t, lag, RunAll(now, iterations).windows)
    decreases |iterations|
  {
    var init, last := iterations[..|iterations| - 1], iterations[|iterations| - 1];
    var s := RunAll(now, init);
    if Succeeded(last) {
      var w := Window(s.last - BACK, last.clock.value);
      LatestMore(s.windows, w);
      AlwaysLinked(now, init);
      if s.windows != [] {
        LatestIsLast(s.windows, |s.windows| - 1);
        if t + lag <= Latest(s.windows) {
          NoLagGap(now, init, t, lag);
        }
      }
      CoveredForMore(t, lag, s.windows, w);
    } else {
      NoLagGap(now, init, t, lag);
    }
  }

  /** No instant is missed. */
  lemma {:induction false} NoGap(now: int, iterations: seq<Iteration>, t: int)
    requires RunAll(now, iterations).windows != []
    requires StartOf(now) <= t <= Latest(RunAll(now, iterations).windows)
    ensures Covered(t, RunAll(now, iterations).windows)
  {
    NoLagGap(now, iterations, t, 0);
    var ws := RunAll(now, iterations).windows;
    var k :| 0 <= k < |ws| && Spans(t, 0, ws[k]);
    assert InWindow(t, ws[k]);
  }

  /** The lag is tolerated in every run. */
  ghost predicate Tolerated(lag: nat) {
    forall now, iterations, t :: AlwaysInside(now, iterations, t, lag)
  }

  ghost predicate AlwaysInside(now: int, iterations: seq<Iteration>, t: int, lag: nat) {
    var ws := RunAll(now, iterations).windows;
    ws != [] && StartOf(now) <= t && t + lag <= Latest(ws) ==> CoveredFor(t, lag, ws)
  }

  function Good(clock: int): Iteration {
    Iteration(true, Some(clock), Some(0), true)
  }

  /** Two windows, the second ending one lag after the instant that both just miss. */
  lemma {:induction false} TooLate(lag: nat)
    requires lag > OVERLAP
    ensures !AlwaysInside(0, [Good(0), Good(lag)], -OVERLAP, lag)
  {
    var first, second := [Good(0)], [Good(0), Good(lag)];
    assert second[..1] == first && first[..0] == [];
    assert RunAll(0, first).windows == [Window(StartOf(0), 0)];
    assert RunAll(0, second).windows == [Window(StartOf(0), 0), Window(-OVERLAP + 1, lag)];
    LatestMore([Window(StartOf(0), 0)], Window(-OVERLAP + 1, lag));
    assert Latest(RunAll(0, second).windows) == lag;
  }

  /** 130 s is exactly the lag that the windows tolerate. */
  lemma {:induction false} ToleratedIff(lag: nat)
    ensures Tolerated(lag) <==> lag <= OVERLAP
  {
    if lag <= OVERLAP {
      forall now, iterations, t ensures AlwaysInside(now, iterations, t, lag) {
        var ws := RunAll(now, iterations).windows;
        if ws != [] && StartOf(now) <= t && t + lag <= Latest(ws) {
          NoLagGap(now, iterations, t, lag);
        }
      }
    } else {
      TooLate(lag);
    }
  }

  // ---------- a clock that never goes back ----------

  /** The readings of the successful iterations do not decrease, from the first one at start-up. */
  ghost predicate Monotone(now: int, windows: seq<Window>) {
    windows == [] ||
    var last := |windows| - 1;
    && Monotone(now, windows[..last])
    && (if last == 0 then now else windows[last - 1].toTime) <= windows[last].toTime
  }

  lemma {:induction false} MonotoneAt(now: int, windows: seq<Window>, k: nat)
    requires Monotone(now, windows) && k < |windows|
    ensures (if k == 0 then now else windows[k - 1].toTime) <= windows[k].toTime
  {
    if k < |windows| - 1 {
      MonotoneAt(now, windows[..|windows| - 1], k);
    }
  }

  /** All clock readings of the run, in order, do not decrease. */
  ghost predicate ClockForward(now: int, iterations: seq<Iteration>) {
    && (forall i :: 0 <= i < |iterations| && iterations[i].clock.Some? ==> now <= iterations[i].clock.value)
    && (forall i, j :: 0 <= i < j < |iterations| && iterations[i].clock.Some? && iterations[j].clock.Some? ==>
          iterations[i].clock.value <= iterations[j].clock.value)
  }

  lemma {:induction false} WindowEnds(now: int, iterations: seq<Iteration>, k: nat)
    requires k < |RunAll(now, iterations).windows|
    ensures exists i :: 0 <= i < |iterations| && iterations[i].clock == Some(RunAll(now, iterations).windows[k].toTime)
    decreases |iterations|
  {
    var init, last := iterations[..|iterations| - 1], iterations[|iterations| - 1];
    var s := RunAll(now, init);
    if k < |s.windows| {
      WindowEnds(now, init, k);
      var i :| 0 <= i < |init| && init[i].clock == Some(s.windows[k].toTime);
      assert iterations[i].clock == Some(s.windows[k].toTime);
    } else {
      assert iterations[|iterations| - 1].clock == Some(RunAll(now, iterations).windows[k].toTime);
    }
  }

  lemma {:induction false} ForwardIsMonotone(now: int, iterations: seq<Iteration>)
    requires ClockForward(now, iterations)
    ensures Monotone(now, RunAll(now, iterations).windows)
    decreases |iterations|
  {
    if iterations != [] {
      var init, last := iterations[..|iterations| - 1], iterations[|iterations| - 1];
      ForwardIsMonotone(now, init);
      var s := RunAll(now, init);
      if Succeeded(last) {
        var w := Window(s.last - BACK, last.clock.value);
        assert (s.windows + [w])[..|s.windows|] == s.windows;
      }
      if Succeeded(last) && s.windows != [] {
        WindowEnds(now, init, |s.windows| - 1);
        var i :| 0 <= i < |init| && init[i].clock == Some(s.windows[|s.windows| - 1].toTime);
        assert iterations[i].clock == init[i].clock;
      }
    }
  }

  lemma WindowStart(now: int, iterations: seq<Iteration>, k: nat)
    requires k < |RunAll(now, iterations).windows|
    ensures var ws := RunAll(now, iterations).windows;
            ws[k].fromTime == if k == 0 then StartOf(now) else ws[k - 1].toTime - 129
  {
    WindowsExact(now, iterations);
  }

  /** With a clock that never goes back, consecutive successful windows share at least 129 s. */
  lemma Overlap(now: int, iterations: seq<Iteration>, k: nat)
    requires ClockForward(now, iterations)
    requires k + 1 < |RunAll(now, iterations).windows|
    ensures var ws := RunAll(now, iterations).windows;
            && ws[k].fromTime <= ws[k + 1].fromTime
            && ws[k + 1].fromTime + 129 <= ws[k].toTime <= ws[k + 1].toTime
  {
    ForwardIsMonotone(now, iterations);
    MonotoneAt(now, RunAll(now, iterations).windows, k);
    MonotoneAt(now, RunAll(now, iterations).windows, k + 1);
    WindowStart(now, iterations, k);
    WindowStart(now, iterations, k + 1);
  }

  lemma {:induction false} EndsAscend(now: int, ws: seq<Window>, k: nat)
    requires Monotone(now, ws) && k < |ws|
    ensures now <= ws[k].toTime <= ws[|ws| - 1].toTime
    decreases |ws|
  {
    if k < |ws| - 1 {
      EndsAscend(now, ws[..|ws| - 1], k);
    } else if k > 0 {
      EndsAscend(now, ws[..|ws| - 1], k - 1);
    }
  }

  lemma {:induction false} LatestOfAscending(now: int, ws: seq<Window>)
    requires Monotone(now, ws) && ws != []
    ensures Latest(ws) == ws[|ws| - 1].toTime
  {
    if |ws| > 1 {
      LatestOfAscending(now, ws[..|ws| - 1]);
    }
  }

  /** With a clock that never goes back, the instants covered are exactly those from the start to
      the last toTime. */
  lemma ExactCoverage(now: int, iterations: seq<Iteration>, t: int)
    requires ClockForward(now, iterations) && RunAll(now, iterations).windows != []
    ensures var ws := RunAll(now, iterations).windows;
            Covered(t, ws) <==> StartOf(now) <= t <= ws[|ws| - 1].toTime
  {
    var ws := RunAll(now, iterations).windows;
    ForwardIsMonotone(now, iterations);
    LatestOfAscending(now, ws);
    if Covered(t, ws) {
      var k :| 0 <= k < |ws| && InWindow(t, ws[k]);
      WindowStart(now, iterations, k);
      EndsAscend(now, ws, k);
      if k > 0 {
        EndsAscend(now, ws, k - 1);
      }
    } else if StartOf(now) <= t <= Latest(ws) {
      NoGap(now, iterations, t);
    }
  }
}
