/** Sequences of run() calls against arbitrary or fixed servers. */
module UpgradeRuns {
  import opened Wrappers
  import opened Versions
  import opened UAgent

  predicate Succeeds(cfg: Config, installed: Installed, w: World) {
    Run(cfg, installed, w).0 == Exit(OK)
  }

  function Next(cfg: Config, installed: Installed, w: World): Installed {
    Run(cfg, installed, w).1
  }

  /** The installed version.json before, between and after the runs. */
  function History(cfg: Config, installed: Installed, worlds: seq<World>): (h: seq<Installed>)
    ensures |h| == |worlds| + 1 && h[0] == installed
    decreases |worlds|
  {
    if worlds == [] then [installed]
    else [installed] + History(cfg, Next(cfg, installed, worlds[0]), worlds[1..])
  }

  ghost predicate Raises(before: Installed, after: Installed) {
    && VersionOf(before).Some? && VersionOf(after).Some?
    && Less(VersionOf(before).value, VersionOf(after).value)
  }

  lemma StepRaises(cfg: Config, installed: Installed, w: World)
    requires KeepsDocuments(w)
    ensures if Succeeds(cfg, installed, w)
            then Raises(installed, Next(cfg, installed, w)) && Served(w, Next(cfg, installed, w))
            else Next(cfg, installed, w) == installed
  {
    RunInstallsServed(cfg, installed, w);
    if Succeeds(cfg, installed, w) {
      UpgradeRaises(cfg.platform, installed, Next(cfg, installed, w));
    }
  }

  /** One step of a history: on OK a location served an allowed upgrade over https, and it is what is
      installed unless a package is stored over its version.json; otherwise nothing changes. */
  ghost predicate GoodStep(cfg: Config, before: Installed, w: World, after: Installed) {
    if Succeeds(cfg, before, w)
    then
      && (exists url :: IsHttps(url + "/version.json") && InstalledFrom(cfg, before, w, url, after))
      && (KeepsDocuments(w) ==> Upgrades(cfg.platform, before, after) && Served(w, after))
    else after == before
  }

  lemma StepGood(cfg: Config, installed: Installed, w: World)
    ensures GoodStep(cfg, installed, w, Next(cfg, installed, w))
  {
    RunSafe(cfg, installed, w);
    if KeepsDocuments(w) {
      RunInstallsServed(cfg, installed, w);
    }
  }

  lemma {:induction false} EveryStepGood(cfg: Config, installed: Installed, worlds: seq<World>, i: nat)
    requires i < |worlds|
    ensures var h := History(cfg, installed, worlds); GoodStep(cfg, h[i], worlds[i], h[i + 1])
    decreases |worlds|
  {
    hide Run;
    var next, more := Next(cfg, installed, worlds[0]), worlds[1..];
    var h, t := History(cfg, installed, worlds), History(cfg, next, more);
    assert h == [installed] + t;
    if i == 0 {
      StepGood(cfg, installed, worlds[0]);
    } else {
      EveryStepGood(cfg, next, more, i - 1);
      assert h[i] == t[i - 1] && h[i + 1] == t[i];
    }
  }

  /** In none of the worlds is a package stored over the version.json of its release. */
  ghost predicate AllKeepDocuments(worlds: seq<World>) {
    forall w :: w in worlds ==> KeepsDocuments(w)
  }

  ghost predicate SameOrRaised(before: Installed, after: Installed) {
    before == after || Raises(before, after)
  }

  lemma SameOrRaisedTransitive(a: Installed, b: Installed, c: Installed)
    requires SameOrRaised(a, b) && SameOrRaised(b, c)
    ensures SameOrRaised(a, c)
  {
    if a != b && b != c {
      TotalOrder(VersionOf(a).value, VersionOf(b).value, VersionOf(c).value);
    }
  }

  lemma {:induction false} HistoryTail(cfg: Config, installed: Installed, worlds: seq<World>, i: nat)
    requires 0 < i <= |worlds|
    ensures History(cfg, installed, worlds)[i] == History(cfg, Next(cfg, installed, worlds[0]), worlds[1..])[i - 1]
  {
  }

  lemma {:induction false} FirstIsLowest(cfg: Config, installed: Installed, worlds: seq<World>, j: nat)
    requires j <= |worlds| && AllKeepDocuments(worlds)
    ensures SameOrRaised(installed, History(cfg, installed, worlds)[j])
    decreases |worlds|
  {
    hide Run;
    if j > 0 {
      var next := Next(cfg, installed, worlds[0]);
      StepRaises(cfg, installed, worlds[0]);
      HistoryTail(cfg, installed, worlds, j);
      FirstIsLowest(cfg, next, worlds[1..], j - 1);
      SameOrRaisedTransitive(installed, next, History(cfg, next, worlds[1..])[j - 1]);
    }
  }

  /** Against arbitrary servers, run after run, the installed files form a chain: later ones are
      the same file or carry a strictly higher version. */
  lemma {:induction false} InstalledChain(cfg: Config, installed: Installed, worlds: seq<World>, i: nat, j: nat)
    requires i <= j <= |worlds| && AllKeepDocuments(worlds)
    ensures SameOrRaised(History(cfg, installed, worlds)[i], History(cfg, installed, worlds)[j])
    decreases |worlds|
  {
    hide Run;
    if i == 0 {
      FirstIsLowest(cfg, installed, worlds, j);
    } else {
      HistoryTail(cfg, installed, worlds, i);
      HistoryTail(cfg, installed, worlds, j);
      InstalledChain(cfg, Next(cfg, installed, worlds[0]), worlds[1..], i - 1, j - 1);
    }
  }

  // ---------- convergence ----------

  function OkCount(cfg: Config, installed: Installed, worlds: seq<World>): nat
    decreases |worlds|
  {
    if worlds == [] then 0
    else
      var rest := OkCount(cfg, Next(cfg, installed, worlds[0]), worlds[1..]);
      if Succeeds(cfg, installed, worlds[0]) then 1 + rest else rest
  }

  /** Everything the servers offer carries one of the published versions. */
  ghost predicate Publishes(w: World, published: set<Version>) {
    forall doc :: Served(w, doc) && VersionOf(doc).Some? ==> VersionOf(doc).value in published
  }

  function Above(published: set<Version>, v: Version): set<Version> {
    set u | u in published && Less(v, u)
  }

  lemma AboveShrinks(published: set<Version>, v: Version, w: Version)
    requires w in published && Less(v, w)
    ensures |Above(published, w)| + 1 <= |Above(published, v)|
  {
    var a, b := Above(published, w), Above(published, v);
    forall u | u in a ensures u in b - {w} {
      TotalOrder(v, w, u);
      TotalOrder(w, u, w);
    }
    Subset(a, b - {w});
    assert w in b;
  }

  lemma Subset(a: set<Version>, b: set<Version>)
    requires a <= b
    ensures |a| <= |b|
  {
    if a != {} {
      var x :| x in a;
      Subset(a - {x}, b - {x});
    }
  }

  /** Against any servers offering only the published versions, run() returns OK at most once per
      published version above the installed one; never when the installed file is unreadable. */
  lemma {:induction false} Convergence(cfg: Config, installed: Installed, worlds: seq<World>, published: set<Version>)
    requires (forall w :: w in worlds ==> Publishes(w, published)) && AllKeepDocuments(worlds)
    ensures OkCount(cfg, installed, worlds)
         <= if VersionOf(installed).Some? then |Above(published, VersionOf(installed).value)| else 0
    decreases |worlds|
  {
    hide Run;
    if worlds != [] {
      var next := Next(cfg, installed, worlds[0]);
      assert worlds[0] in worlds;
      StepRaises(cfg, installed, worlds[0]);
      Convergence(cfg, next, worlds[1..], published);
      if Succeeds(cfg, installed, worlds[0]) {
        AboveShrinks(published, VersionOf(installed).value, VersionOf(next).value);
      }
    }
  }

  // ---------- a fixed world ----------

  function Repeat(w: World, n: nat): (r: seq<World>)
    ensures |r| == n && forall x :: x in r ==> x == w
  {
    if n == 0 then [] else [w] + Repeat(w, n - 1)
  }

  function Final(cfg: Config, installed: Installed, w: World, n: nat): Installed
    decreases n
  {
    if n == 0 then installed else Final(cfg, Next(cfg, installed, w), w, n - 1)
  }

  lemma {:induction false} StuckStays(cfg: Config, installed: Installed, w: World, n: nat)
    requires !Succeeds(cfg, installed, w)
    ensures Final(cfg, installed, w, n) == installed
    decreases n
  {
    if n > 0 {
      StepGood(cfg, installed, w);
      StuckStays(cfg, installed, w, n - 1);
    }
  }

  lemma {:induction false} StillSucceeding(cfg: Config, installed: Installed, w: World, n: nat)
    requires Succeeds(cfg, Final(cfg, installed, w, n), w)
    ensures OkCount(cfg, installed, Repeat(w, n + 1)) == n + 1
    decreases n
  {
    hide Run;
    OkCountRepeat(cfg, installed, w, n);
    if n > 0 {
      if !Succeeds(cfg, installed, w) {
        StuckStays(cfg, installed, w, n);
      }
      StillSucceeding(cfg, Next(cfg, installed, w), w, n - 1);
    }
  }

  lemma OkCountRepeat(cfg: Config, installed: Installed, w: World, n: nat)
    ensures OkCount(cfg, installed, Repeat(w, n + 1))
         == (if Succeeds(cfg, installed, w) then 1 else 0) + OkCount(cfg, Next(cfg, installed, w), Repeat(w, n))
    ensures OkCount(cfg, installed, Repeat(w, 0)) == 0
  {
    var all := Repeat(w, n + 1);
    assert all[0] == w && all[1..] == Repeat(w, n);
  }

  /** Against a fixed world the agent settles: after as many runs as there are published versions
      above the first, no further run upgrades. */
  lemma {:induction false} Settles(cfg: Config, installed: Installed, w: World, published: set<Version>, n: nat)
    requires Publishes(w, published) && KeepsDocuments(w) && VersionOf(installed).Some?
    requires n >= |Above(published, VersionOf(installed).value)|
    ensures !Succeeds(cfg, Final(cfg, installed, w, n), w)
  {
    hide Run;
    Convergence(cfg, installed, Repeat(w, n + 1), published);
    if Succeeds(cfg, Final(cfg, installed, w, n), w) {
      StillSucceeding(cfg, installed, w, n);
    }
  }
}
