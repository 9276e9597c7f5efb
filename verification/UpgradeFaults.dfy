/** Inputs on which the upgrade does not do what it is for: a file that raises stops the run, a package
    stored as version.json replaces its release, and releases are lost between windows. */
module UpgradeFaults {
  import opened Wrappers
  import opened Text
  import opened Versions
  import opened UAgent
  import opened UpgradeRuns
  import opened Release
  import M = UpdateManager
  import opened Packager
  import opened Publishing
  import opened Rollout
  import D = UmDaemon
  import Delivery

  const PLATFORM := "linux"
  const SUM := "c"
  const NEXT := Version(2, 0, 0, 0)

  function ReleaseDoc(v: Version, upgradeFrom: string, packageFile: string): Doc {
    StrDoc(Print(v), PLATFORM, SUM, upgradeFrom, packageFile)
  }

  const OLD := ReleaseDoc(LOWEST, PrintRange(LOWEST, LOWEST), PACKAGE_FILE)
  const NEW := ReleaseDoc(NEXT, PrintRange(LOWEST, NEXT), PACKAGE_FILE)

  /** Release 2.0.0.0, with a single version as upgradeFrom. */
  const NO_DASH := ReleaseDoc(NEXT, Print(LOWEST), PACKAGE_FILE)

  /** Release 2.0.0.0, with a number as version. */
  const NUMBER := Doc(Other, Str(PLATFORM), Str(SUM), Str(PrintRange(LOWEST, NEXT)), Str(PACKAGE_FILE))

  /** A path with its own URL, back into the download directory. */
  const DETOUR := "../download" + "/" + VERSION_JSON

  /** Release 2.0.0.0, with a package that is stored over it. */
  const OVER := ReleaseDoc(NEXT, PrintRange(LOWEST, NEXT), DETOUR)

  /** A location with the document and a good package, which is no JSON. */
  function Serving(doc: Doc): Server {
    Server(OK, OK, Some(doc), true, OK, OK, Corrupt, true, SUM, true, OK, OK)
  }

  lemma ReadRelease(v: Version, packageFile: string)
    requires NonNegative(v) && packageFile != ""
    ensures ReadVersionFile(ReleaseDoc(v, PrintRange(LOWEST, v), packageFile))
         == Some(VersionFile(Some(v), Some(Str(PLATFORM)), Some(Str(SUM)), Some(LOWEST), Some(v),
                             Some(Str(packageFile))))
  {
    hide ReadVersionFile;
    RangeSplits(LOWEST, v);
    ParsePrint(v);
    ParsePrint(LOWEST);
    PrintNotEmpty(v);
    ReadStrDoc(Print(v), PLATFORM, SUM, PrintRange(LOWEST, v), packageFile, [Print(LOWEST), Print(v)], v, LOWEST, v);
  }

  // ---------- https bases ----------

  ghost predicate HttpsBases(cfg: Config) {
    forall b :: b in SplitOn(cfg.serverBase, ",") ==> IsHttps(b)
  }

  lemma HttpsPrefix(base: string, tail: string)
    requires IsHttps(base)
    ensures IsHttps(base + tail)
  {
    assert Lower(base + tail)[..8] == Lower(base)[..8];
  }

  lemma HttpsCandidates(cfg: Config, w: World, url: string)
    requires HttpsBases(cfg) && url in AllCandidates(cfg, w)
    ensures IsHttps(url + "/version.json")
  {
    CandidatesOf(cfg, SplitOn(cfg.serverBase, ","), 0, w.offhour, url);
    var b, tail :| b in SplitOn(cfg.serverBase, ",") && url == b + tail;
    HttpsPrefix(b, tail + "/version.json");
    assert b + (tail + "/version.json") == url + "/version.json";
  }

  lemma SeveralCandidates(cfg: Config, w: World)
    ensures |AllCandidates(cfg, w)| >= 2
  {
  }

  // ---------- a file that raises ----------

  /** A range without a dash, a list in the place of the object, and a version that is a number. */
  lemma {:induction false} BadFiles()
    ensures ReadVersionFile(NO_DASH).None? && ReadVersionFile(NoObject).None? && ReadVersionFile(NUMBER).None?
  {
    ParsePrint(NEXT);
    ParsePrint(LOWEST);
    PrintNotEmpty(LOWEST);
    PrintHasNoDash(LOWEST);
    CharNotInFree(Print(LOWEST), '-');
    ReadRaisesIff(NO_DASH);
  }

  /** The first location serves the bad file, all others the good release. */
  function BadFirst(bad: Doc): World {
    World((k: nat, url: string) => if k == 0 then Serving(bad) else Serving(NEW), (i: nat) => true)
  }

  lemma NewUpgrades()
    ensures Upgrades(PLATFORM, Some(OLD), Some(NEW))
  {
    ReadRelease(LOWEST, PACKAGE_FILE);
    ReadRelease(NEXT, PACKAGE_FILE);
  }

  lemma NewInstalls(url: string)
    requires IsHttps(url + "/version.json")
    ensures UpgradeOnce(PLATFORM, Some(OLD), url, Serving(NEW)) == (Exit(OK), Some(NEW))
  {
    hide UpgradeOnce;
    NewUpgrades();
    ReadRelease(NEXT, PACKAGE_FILE);
    PackageName();
    AttemptOkIff(PLATFORM, Some(OLD), url, Serving(NEW));
  }

  lemma BadStops(url: string, bad: Doc)
    requires IsHttps(url + "/version.json") && ReadVersionFile(bad).None?
    ensures UpgradeOnce(PLATFORM, Some(OLD), url, Serving(bad)) == (Raised, Some(OLD))
  {
    hide UpgradeOnce;
    AttemptRaisesIff(PLATFORM, Some(OLD), url, Serving(bad));
    AttemptSafe(PLATFORM, Some(OLD), url, Serving(bad));
  }

  /** The run ends with the exception at the first location, although every later one would have
      upgraded the agent. */
  lemma {:induction false} OneBadFileStopsTheRun(cfg: Config, bad: Doc)
    requires HttpsBases(cfg) && cfg.platform == PLATFORM && ReadVersionFile(bad).None?
    ensures Run(cfg, Some(OLD), BadFirst(bad)) == (Raised, Some(OLD))
         && |Attempts(cfg, Some(OLD), BadFirst(bad))| == 1
    ensures forall k: nat :: 0 < k < |AllCandidates(cfg, BadFirst(bad))| ==>
              Try(cfg, Some(OLD), k, AllCandidates(cfg, BadFirst(bad))[k], BadFirst(bad)).outcome == Exit(OK)
  {
    hide UpgradeOnce;
    var w, urls := BadFirst(bad), AllCandidates(cfg, BadFirst(bad));
    SeveralCandidates(cfg, w);
    HttpsCandidates(cfg, w, urls[0]);
    BadStops(urls[0], bad);
    RunStops(cfg, Some(OLD), w, 0);
    forall k: nat | 0 < k < |urls| ensures Try(cfg, Some(OLD), k, urls[k], w).outcome == Exit(OK) {
      HttpsCandidates(cfg, w, urls[k]);
      NewInstalls(urls[k]);
    }
  }

  // ---------- a package stored as version.json ----------

  /** An agent whose version.json cannot be read never upgrades again. */
  lemma {:induction false} UnreadableStays(cfg: Config, installed: Installed, worlds: seq<World>, i: nat)
    requires VersionOf(installed).None? && i <= |worlds|
    ensures History(cfg, installed, worlds)[i] == installed
    decreases i
  {
    if i > 0 {
      RunSafe(cfg, installed, worlds[0]);
      UnreadableStays(cfg, installed, worlds[1..], i - 1);
    }
  }

  function EveryoneServes(doc: Doc): World {
    World((k: nat, url: string) => Serving(doc), (i: nat) => true)
  }

  lemma OverUpgrades()
    ensures Upgrades(PLATFORM, Some(OLD), Some(OVER))
  {
    ReadRelease(LOWEST, PACKAGE_FILE);
    ReadRelease(NEXT, DETOUR);
  }

  lemma OwnName()
    ensures SingleName(VERSION_JSON) && BaseName(DETOUR) == VERSION_JSON
  {
    BaseNamePlain(VERSION_JSON);
    BaseNameTail("../download", VERSION_JSON);
  }

  lemma OverInstallsPackage(url: string)
    requires IsHttps(url + "/version.json")
    ensures UpgradeOnce(PLATFORM, Some(OLD), url, Serving(OVER)) == (Exit(OK), Some(Corrupt))
  {
    hide UpgradeOnce;
    OverUpgrades();
    ReadRelease(NEXT, DETOUR);
    OwnName();
    AttemptOkIff(PLATFORM, Some(OLD), url, Serving(OVER));
  }

  /** The run returns OK and leaves the package as version.json, and no later run, against any
      servers, changes that. */
  lemma {:induction false} PackageReplacesRelease(cfg: Config, worlds: seq<World>, i: nat)
    requires HttpsBases(cfg) && cfg.platform == PLATFORM && i <= |worlds|
    ensures Run(cfg, Some(OLD), EveryoneServes(OVER)) == (Exit(OK), Some(Corrupt))
    ensures Some(Corrupt) != Some(OVER) && History(cfg, Some(Corrupt), worlds)[i] == Some(Corrupt)
  {
    hide UpgradeOnce;
    var w, urls := EveryoneServes(OVER), AllCandidates(cfg, EveryoneServes(OVER));
    SeveralCandidates(cfg, w);
    HttpsCandidates(cfg, w, urls[0]);
    OverInstallsPackage(urls[0]);
    RunStops(cfg, Some(OLD), w, 0);
    UnreadableStays(cfg, Some(Corrupt), worlds, i);
  }

  // ---------- releases between windows ----------

  const HOST := M.Host("1", "1", "h")

  /** json.loads on the texts that are read here, and no document for all others. */
  function Loads(text: string): Doc {
    if ReadText(text).Some? then ReadText(text).value else Corrupt
  }

  const SETTING := Setting("/tmp", HOST, PLATFORM, "https://u", true, Loads)

  function Change(version: int, platform: Option<string>): M.Item {
    M.Item(Some(HOST.org), Some(HOST.sys), Some(HOST.name), Some("/etc/f"), Some(version), platform,
           Some("filebeat"), Some(""))
  }

  function AllWell(checksum: string): Calls {
    Calls(Whole(checksum), Some(Numbers(2, 0, 0)), Signed, Signed)
  }

  function WindowOf(version: int, checksum: string, asked: bool): Round {
    Round([Change(version, Some(PLATFORM))], AllWell(checksum), asked, true)
  }

  lemma Settled()
    ensures GoodSetting(SETTING)
  {
    assert Lower("https://u" + "/version.json")[..8] == "https://";
  }

  lemma ShortPrint(b: nat)
    requires b < 10
    ensures |Print(Version(2, 0, 0, b))| == 7
  {
    VersionText(Version(2, 0, 0, b));
    assert |PrintInt(2)| == |PrintInt(0)| == |PrintInt(b)| == 1;
  }

  lemma OneChange(b: nat, platform: Option<string>)
    ensures M.VersionsOf([Change(b, platform)], HOST) == [b]
    ensures M.PlatformsOf([Change(b, platform)], HOST) == if platform.Some? then [platform.value] else []
    ensures M.Mentions([Change(b, platform)], HOST)
  {
    assert [Change(b, platform)][..0] == [];
    assert Change(b, platform) in [Change(b, platform)];
  }

  function OfferOf(b: nat, checksum: string): Offer {
    Offer(Version(2, 0, 0, b), PLATFORM, checksum)
  }

  lemma GoodWindow(b: nat, checksum: string, asked: bool)
    requires Unescaped(checksum)
    ensures var r := WindowOf(b, checksum, asked);
            GoodRound(SETTING, r) && NewPackage(SETTING, r) == Some(checksum) && r.reloaded
  {
    OneChange(b, Some(PLATFORM));
    M.NoUnderscoreOwns([Change(b, Some(PLATFORM))], HOST);
  }

  /** After a reload, a window releases its own version. */
  lemma WindowReleases(before: seq<Round>, b: nat, checksum: string, asked: bool)
    requires Unescaped(checksum) && (before == [] || before[|before| - 1].reloaded)
    ensures ReleaseOf(SETTING, before + [WindowOf(b, checksum, asked)]) == Some(OfferOf(b, checksum))
  {
    hide ReleaseOf;
    OneChange(b, Some(PLATFORM));
    LoneRelease(SETTING, before + [WindowOf(b, checksum, asked)], b, PLATFORM);
  }

  lemma OldStarts()
    ensures Started(SETTING, Some(OLD)) && VersionOf(Some(OLD)) == Some(LOWEST)
  {
    ReadRelease(LOWEST, PACKAGE_FILE);
  }

  lemma OldTakes(b: nat, checksum: string)
    requires b < 10 && |checksum| == 1
    ensures Takes(SETTING, LOWEST, Some(OfferOf(b, checksum)))
  {
    ShortPrint(b);
  }

  /** A window with version 5 and one with version 3, the agent asking after the second and perhaps
      after the first. */
  function FiveThenThree(askedFirst: bool): seq<Round> {
    [WindowOf(5, "a", askedFirst), WindowOf(3, "b", true)]
  }

  lemma FiveThenThreeReleases(askedFirst: bool)
    ensures var rounds := FiveThenThree(askedFirst);
            && GoodRounds(SETTING, rounds)
            && ReleaseOf(SETTING, rounds[..1]) == Some(OfferOf(5, "a"))
            && ReleaseOf(SETTING, rounds) == Some(OfferOf(3, "b"))
  {
    hide GoodRound, ReleaseOf, NewPackage;
    var rounds := FiveThenThree(askedFirst);
    GoodWindow(5, "a", askedFirst);
    GoodWindow(3, "b", true);
    WindowReleases([], 5, "a", askedFirst);
    WindowReleases(rounds[..1], 3, "b", true);
    assert rounds[..1] == [] + [WindowOf(5, "a", askedFirst)] && rounds == rounds[..1] + [WindowOf(3, "b", true)];
  }

  /** Asking only after the second window, the agent ends with 2.0.0.3. */
  lemma {:induction false} HigherReleaseLost()
    ensures VersionOf(AgentAfter(SETTING, Some(OLD), FiveThenThree(false))) == Some(Version(2, 0, 0, 3))
  {
    hide AgentAfter, GoodRounds, ReleaseOf, NewPackage, Started, VersionOf, Takes, GoodSetting;
    FiveThenThreeReleases(false);
    GoodWindow(3, "b", true);
    OldStarts();
    OldTakes(3, "b");
    Settled();
    UnaskedIsLost(SETTING, Some(OLD), WindowOf(5, "a", false), WindowOf(3, "b", true));
  }

  /** Asking after both windows, the agent takes 2.0.0.5 and keeps it: the second package, with the
      only change of its window, is published, complete and asked for, and never installed. */
  lemma {:induction false} LowerChangeIgnored()
    ensures AgentAfter(SETTING, Some(OLD), FiveThenThree(true)[..1]) == FileOf(OfferOf(5, "a"))
    ensures AgentAfter(SETTING, Some(OLD), FiveThenThree(true)) == FileOf(OfferOf(5, "a"))
    ensures Offered(SETTING, FiveThenThree(true)) == Some(OfferOf(3, "b"))
    ensures !ChangeInstalled(SETTING, Some(OLD), FiveThenThree(true), Change(3, Some(PLATFORM)))
  {
    hide AgentAfter, GoodRounds, ReleaseOf, NewPackage, Started, VersionOf, GoodSetting, Takes, ChangeInstalled;
    var rounds := FiveThenThree(true);
    FiveThenThreeReleases(true);
    GoodWindow(5, "a", true);
    GoodWindow(3, "b", true);
    OldStarts();
    OldTakes(5, "a");
    Settled();
    assert rounds[..1] == [rounds[0]] && rounds == [rounds[0], rounds[1]];
    LowerIsIgnored(SETTING, Some(OLD), rounds[0], rounds[1], Change(3, Some(PLATFORM)));
  }

  /** A window with version 5 for the host, and one with an item that names no platform. */
  function Spoiled(): seq<Round> {
    [WindowOf(5, "a", false), Round([Change(6, None)], AllWell("b"), true, true)]
  }

  lemma BareRound()
    ensures GoodRound(SETTING, Spoiled()[1]) && NewPackage(SETTING, Spoiled()[1]) == Some("b")
  {
    OneChange(6, None);
    M.NoUnderscoreOwns([Change(6, None)], HOST);
  }

  lemma BareReleasesNothing()
    ensures VersionFor(SETTING, Spoiled()).None? && ReleaseOf(SETTING, Spoiled()).None?
  {
    OneChange(6, None);
    KeptAfterReload(Spoiled());
  }

  lemma SpoiledRounds()
    ensures GoodRounds(SETTING, Spoiled()) && ReleaseOf(SETTING, [Spoiled()[0]]) == Some(OfferOf(5, "a"))
  {
    hide GoodRound, ReleaseOf, NewPackage;
    GoodWindow(5, "a", false);
    BareRound();
    WindowReleases([], 5, "a", false);
    assert [Spoiled()[0]] == [] + [WindowOf(5, "a", false)];
  }

  /** The second package is published under the first version.json: release 5 can no longer be
      installed, and the agent keeps its file. */
  lemma {:induction false} PackageSpoiled()
    ensures AgentAfter(SETTING, Some(OLD), Spoiled()) == Some(OLD)
    ensures Published(SETTING, Spoiled()) == ReleaseFiles(OfferOf(5, "a")).(package := Some("b"))
    ensures Ask(SETTING, Some(OLD), Published(SETTING, Spoiled())) == (Exit(ERR_BAD_CHECKSUM), Some(OLD))
  {
    hide AgentAfter, GoodRounds, ReleaseOf, VersionFor, NewPackage, Started, VersionOf, Takes, Ask, GoodSetting;
    hide Published;
    Settled();
    SpoiledRounds();
    BareRound();
    BareReleasesNothing();
    OldStarts();
    OldTakes(5, "a");
    SpoiledIsLost(SETTING, Some(OLD), Spoiled()[0], Spoiled()[1]);
    PackageUnderRelease(SETTING, Spoiled()[0], Spoiled()[1]);
    OtherPackage(SETTING, Some(OLD), OfferOf(5, "a"), "b");
  }

  // ---------- a change in the only window that has it ----------

  const CHANGED := -1000

  /** The change with version 5, for every window that has its instant. */
  function Answers(fromTime: int, toTime: int): seq<M.Item> {
    if fromTime <= CHANGED <= toTime then [Change(5, Some(PLATFORM))] else []
  }

  lemma {:induction false} FirstWindow(iterations: seq<D.Iteration>)
    requires iterations != [] && iterations[0] == D.Good(0)
    ensures var ws := D.RunAll(0, iterations).windows; ws != [] && ws[0] == D.Window(D.StartOf(0), 0)
  {
    var init := iterations[..|iterations| - 1];
    if |iterations| == 1 {
      assert init == [];
    } else {
      FirstWindow(init);
    }
  }

  /** With a clock that goes forward, no later window has the change. */
  lemma NotAgain(iterations: seq<D.Iteration>, k: nat)
    requires D.ClockForward(0, iterations) && 0 < k < |D.RunAll(0, iterations).windows|
    ensures D.RunAll(0, iterations).windows[k].fromTime > CHANGED
  {
    D.WindowStart(0, iterations, k);
    D.WindowEnds(0, iterations, k - 1);
  }

  /** In the round of the first window the answer was not parsed, or the CMDB failed. */
  function FailingRound(parsed: bool, reloaded: bool): Round {
    var calls := if parsed then AllWell("a").(cmdb := None) else AllWell("a");
    Round(if parsed then Answers(D.StartOf(0), 0) else [], calls, true, reloaded)
  }

  lemma FailingIsGood(parsed: bool, reloaded: bool)
    ensures GoodRound(SETTING, FailingRound(parsed, reloaded))
    ensures ReleaseOf(SETTING, [FailingRound(parsed, reloaded)]).None?
  {
    OneChange(5, Some(PLATFORM));
    M.NoUnderscoreOwns([Change(5, Some(PLATFORM))], HOST);
  }

  lemma IdleRound(rounds: seq<Round>)
    requires rounds != [] && rounds[|rounds| - 1].items == []
    ensures NewPackage(SETTING, rounds[|rounds| - 1]).None? && ReleaseOf(SETTING, rounds).None?
  {
  }

  /** The rounds of the windows after the first, however their packaging goes. */
  ghost predicate Answered(later: seq<Round>, windows: seq<D.Window>) {
    && |later| + 1 == |windows|
    && forall k :: 0 <= k < |later| ==>
         later[k].items == Answers(windows[k + 1].fromTime, windows[k + 1].toTime) && GoodRound(SETTING, later[k])
  }

  lemma LaterAreIdle(iterations: seq<D.Iteration>, later: seq<Round>, k: nat)
    requires D.ClockForward(0, iterations) && Answered(later, D.RunAll(0, iterations).windows) && k < |later|
    ensures later[k].items == []
  {
    NotAgain(iterations, k + 1);
  }

  /** The daemon counts the first iteration as successful, so no later window has the change: in every
      run that goes on from there the agent, asking whenever it likes, stays at 1.0.0.0, whether the
      module is reloaded or not. */
  lemma {:induction false} ChangeLost(parsed: bool, reloaded: bool, iterations: seq<D.Iteration>, later: seq<Round>)
    requires iterations != [] && iterations[0] == D.Good(0) && D.ClockForward(0, iterations)
    requires Answered(later, D.RunAll(0, iterations).windows)
    ensures Delivery.Reports(Answers, Change(5, Some(PLATFORM)), CHANGED, 0)
    ensures var w, r := D.RunAll(0, iterations).windows[0], FailingRound(parsed, reloaded);
            D.Spans(CHANGED, 0, w) && (parsed ==> r.items == Answers(w.fromTime, w.toTime))
    ensures AgentAfter(SETTING, Some(OLD), [FailingRound(parsed, reloaded)] + later) == Some(OLD)
  {
    hide AgentAfter, GoodRounds, Started, GoodSetting, ReleaseOf;
    Settled();
    OldStarts();
    FirstWindow(iterations);
    NothingCompletes(parsed, reloaded, iterations, later);
    NothingReleased(SETTING, Some(OLD), [FailingRound(parsed, reloaded)] + later);
  }

  lemma NothingCompletes(parsed: bool, reloaded: bool, iterations: seq<D.Iteration>, later: seq<Round>)
    requires D.ClockForward(0, iterations) && Answered(later, D.RunAll(0, iterations).windows)
    ensures var rounds := [FailingRound(parsed, reloaded)] + later;
            && GoodRounds(SETTING, rounds)
            && forall i: nat :: i < |rounds| ==> ReleaseAt(SETTING, rounds, i).None?
  {
    hide GoodRound, ReleaseOf, NewPackage, D.ClockForward;
    var rounds := [FailingRound(parsed, reloaded)] + later;
    FailingIsGood(parsed, reloaded);
    forall i: nat | i < |rounds|
      ensures GoodRound(SETTING, rounds[i]) && ReleaseAt(SETTING, rounds, i).None?
      ensures i > 0 ==> NewPackage(SETTING, rounds[i]).None?
    {
      if i == 0 {
        assert rounds[..1] == [FailingRound(parsed, reloaded)];
      } else {
        LaterAreIdle(iterations, later, i - 1);
        assert rounds[..i + 1][i] == rounds[i];
        IdleRound(rounds[..i + 1]);
      }
    }
  }
}
