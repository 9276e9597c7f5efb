/** An agent that asks its location between the rounds of the manager: what it has after any rounds,
    which packages it ever installs, and which changes reach it. */
module Rollout {
  import opened Wrappers
  import opened Versions
  import opened UAgent
  import opened Release
  import opened Packager
  import opened Publishing
  import M = UpdateManager
  import D = UmDaemon
  import Delivery

  // ---------- what the agent does ----------

  function Answer(file: Option<string>): ExitCode {
    if file.Some? then OK else ERR_DOWNLOAD_FAILED
  }

  predicate Signs(signature: Option<string>, file: Option<string>) {
    file.Some? && signature == file
  }

  /** A server with these files, on which nothing else goes wrong. */
  function ServerOf(c: Setting, f: Files): Server {
    Server(if f.json.Some? then SizeAnswer(c.header, |f.json.value|) else ERR_DOWNLOAD_FAILED, Answer(f.jsonSig),
           if f.json.Some? then Some(c.loads(f.json.value)) else None, Signs(f.jsonSig, f.json),
           Answer(f.package), Answer(f.packageSig), Corrupt, false,
           if f.package.Some? then f.package.value else "", Signs(f.packageSig, f.package), OK, OK)
  }

  function Ask(c: Setting, installed: Installed, f: Files): (Outcome, Installed) {
    UpgradeOnce(c.platform, installed, c.url, ServerOf(c, f))
  }

  function AgentAfter(c: Setting, installed: Installed, rounds: seq<Round>): Installed {
    if rounds == [] then installed
    else
      var before := AgentAfter(c, installed, rounds[..|rounds| - 1]);
      if rounds[|rounds| - 1].asked then Ask(c, before, Published(c, rounds)).1 else before
  }

  // ---------- one answer ----------

  /** The agent's own file can be used and is not below 1.0.0.0. */
  ghost predicate Started(c: Setting, installed: Installed) {
    Usable(c.platform, installed) && LessEq(LOWEST, VersionOf(installed).value)
  }

  lemma {:induction false} AskRelease(c: Setting, installed: Installed, o: Offer)
    requires GoodSetting(c) && Usable(c.platform, installed) && Unescaped(o.platform) && Unescaped(o.checksum)
    ensures UpgradesTo(Ask(c, installed, ReleaseFiles(o)), c.platform, installed, o.version, o.platform, o.checksum,
                       c.header)
  {
    hide UpgradeOnce;
    var text := PublishedText(o.version, o.platform, o.checksum);
    assert ReadText(text).Some? ==> c.loads(text) == ReadText(text).value;
    PublishedUpgradesIff(c.platform, installed, c.url, ServerOf(c, ReleaseFiles(o)), o.version, o.platform, o.checksum,
                         c.header);
  }

  /** A published text is read as no upgrade or as its own fields. */
  lemma ReadsChecksum(c: Setting, installed: Installed, v: Version, platform: string, checksum: string)
    requires GoodSetting(c) && Unescaped(platform) && Unescaped(checksum)
    requires Upgrades(c.platform, installed, Some(c.loads(PublishedText(v, platform, checksum))))
    ensures ReadVersionFile(c.loads(PublishedText(v, platform, checksum))).value.checksum == Some(Str(checksum))
  {
    PublishedReads(v, platform, checksum);
    assert ReadText(PublishedText(v, platform, checksum)).Some?;
    if NonNegative(v) {
      ReadPublished(v, platform, checksum);
    } else {
      NegativeRangeInvalid(v, platform, checksum);
    }
  }

  lemma InstallableIsCoherent(c: Setting, installed: Installed, rounds: seq<Round>, f: Files)
    requires GoodSetting(c) && GoodRounds(c, rounds) && Known(c, rounds, f)
    requires Installable(c.platform, installed, c.url, ServerOf(c, f))
    ensures Coherent(f)
  {
    var checksum :| TextFor(f.json.value, checksum) && PackageOf(c, rounds, checksum);
    var v, platform :| Unescaped(platform) && f.json.value == PublishedText(v, platform, checksum);
    PackagesArePlain(c, rounds, checksum);
    ReadsChecksum(c, installed, v, platform, checksum);
    assert f == ReleaseFiles(Offer(v, platform, checksum));
  }

  /** Nothing is installed from files that do not belong together. */
  lemma {:induction false} AskIncoherent(c: Setting, installed: Installed, rounds: seq<Round>, f: Files)
    requires GoodSetting(c) && GoodRounds(c, rounds) && Known(c, rounds, f) && !Coherent(f)
    ensures Ask(c, installed, f).0 != Exit(OK) && Ask(c, installed, f).1 == installed
  {
    hide UpgradeOnce;
    AttemptOkIff(c.platform, installed, c.url, ServerOf(c, f));
    if Installable(c.platform, installed, c.url, ServerOf(c, f)) {
      InstallableIsCoherent(c, installed, rounds, f);
    }
  }

  /** The offer is for the agent's platform and can be read by it. */
  predicate Fits(c: Setting, o: Offer) {
    o.platform == c.platform && Acceptable(o.version, o.platform, o.checksum, c.header)
  }

  /** It is also higher than what the agent has. */
  predicate Takes(c: Setting, v: Version, offer: Option<Offer>) {
    offer.Some? && Fits(c, offer.value) && Less(v, offer.value.version)
  }

  function FileOf(o: Offer): Installed {
    Some(Publish(o.version, o.platform, o.checksum))
  }

  /** An agent that asks after any rounds upgrades exactly when something that fits and is higher can be
      installed; it then has that release, and otherwise keeps its file. */
  lemma {:induction false} AskedIff(c: Setting, installed: Installed, rounds: seq<Round>)
    requires GoodSetting(c) && GoodRounds(c, rounds) && Started(c, installed)
    ensures var r, offer := Ask(c, installed, Published(c, rounds)), Offered(c, rounds);
            && (r.0 == Exit(OK) <==> Takes(c, VersionOf(installed).value, offer))
            && r.1 == if r.0 == Exit(OK) then FileOf(offer.value) else installed
  {
    hide UpgradeOnce;
    CoherentIffOffered(c, rounds);
    var offer := Offered(c, rounds);
    if offer.Some? {
      AskRelease(c, installed, offer.value);
      TotalOrder(LOWEST, VersionOf(installed).value, offer.value.version);
    } else {
      PublishedIsKnown(c, rounds);
      AskIncoherent(c, installed, rounds, Published(c, rounds));
    }
  }

  lemma OfferStarts(c: Setting, installed: Installed, rounds: seq<Round>)
    requires GoodSetting(c) && GoodRounds(c, rounds) && Started(c, installed)
    requires Takes(c, VersionOf(installed).value, Offered(c, rounds))
    ensures var o := Offered(c, rounds).value;
            Started(c, FileOf(o)) && VersionOf(FileOf(o)) == Some(o.version)
  {
    hide FileOf, Started, Published;
    CoherentIffOffered(c, rounds);
    TakenStarts(c, installed, Offered(c, rounds).value);
  }

  lemma TakenStarts(c: Setting, installed: Installed, o: Offer)
    requires Started(c, installed) && Takes(c, VersionOf(installed).value, Some(o))
    requires Unescaped(o.platform) && Unescaped(o.checksum)
    ensures Started(c, FileOf(o)) && VersionOf(FileOf(o)) == Some(o.version)
  {
    hide Publish, ReadVersionFile, Cmp;
    TotalOrder(LOWEST, VersionOf(installed).value, o.version);
    ReadPublished(o.version, o.platform, o.checksum);
  }

  /** With another package under a release that the agent would take, the attempt ends with
      ERR_BAD_CHECKSUM. */
  lemma {:induction false} OtherPackage(c: Setting, installed: Installed, o: Offer, other: string)
    requires GoodSetting(c) && Started(c, installed) && Unescaped(o.platform) && Unescaped(o.checksum)
    requires other != o.checksum && Takes(c, VersionOf(installed).value, Some(o))
    ensures Ask(c, installed, ReleaseFiles(o).(package := Some(other))) == (Exit(ERR_BAD_CHECKSUM), installed)
  {
    hide UpgradeOnce, FetchAndInstall, CheckVersions, ReadVersionFile;
    var srv := ServerOf(c, ReleaseFiles(o).(package := Some(other)));
    PublishedReads(o.version, o.platform, o.checksum);
    PublishedSize(o.version, o.platform, o.checksum);
    assert ReadText(PublishedText(o.version, o.platform, o.checksum)).Some?;
    PublishedUpgrades(c.platform, installed, o.version, o.platform, o.checksum);
    ReadPublished(o.version, o.platform, o.checksum);
    ChecksPassIff(c.platform, installed, srv.doc, srv.docSigned);
    OpeningOk(c.url, srv);
    StagesOk(c.platform, installed, c.url, srv);
    PackageName();
    PackageCodes(c.url, ReadVersionFile(srv.doc.value).value, FirstDownload(c.url, srv), srv);
  }

  // ---------- the agent over all rounds ----------

  /** The highest of the first version and of the fitting offers at the times the agent asked. */
  function Highest(c: Setting, v: Version, rounds: seq<Round>): Version {
    if rounds == [] then v
    else
      var before := Highest(c, v, rounds[..|rounds| - 1]);
      if rounds[|rounds| - 1].asked && Takes(c, before, Offered(c, rounds)) then Offered(c, rounds).value.version
      else before
  }

  /** Whatever the rounds are, the agent ends with the highest fitting version that could be installed
      when it asked, or its own. */
  lemma {:induction false} AgentHasHighest(c: Setting, installed: Installed, rounds: seq<Round>)
    requires GoodSetting(c) && GoodRounds(c, rounds) && Started(c, installed)
    ensures Started(c, AgentAfter(c, installed, rounds))
    ensures VersionOf(AgentAfter(c, installed, rounds)).value == Highest(c, VersionOf(installed).value, rounds)
  {
    hide Ask;
    if rounds != [] {
      var init := rounds[..|rounds| - 1];
      GoodInit(c, rounds);
      AgentHasHighest(c, installed, init);
      if rounds[|rounds| - 1].asked {
        AskedIff(c, AgentAfter(c, installed, init), rounds);
        if Takes(c, VersionOf(AgentAfter(c, installed, init)).value, Offered(c, rounds)) {
          OfferStarts(c, AgentAfter(c, installed, init), rounds);
        }
      }
    }
  }

  /** The agent asked after round k, when this fitting version could be installed. */
  predicate AskedFor(c: Setting, rounds: seq<Round>, k: int, v: Version) {
    && 0 <= k < |rounds| && rounds[k].asked
    && var offer := Offered(c, rounds[..k + 1]);
    && offer.Some? && offer.value.version == v && Fits(c, offer.value)
  }

  /** The highest is the first version or such an offer, and no such offer is higher. */
  lemma {:induction false} HighestIsMaximum(c: Setting, v: Version, rounds: seq<Round>)
    ensures Highest(c, v, rounds) == v || exists k :: AskedFor(c, rounds, k, Highest(c, v, rounds))
    ensures LessEq(v, Highest(c, v, rounds))
    ensures forall k, u :: AskedFor(c, rounds, k, u) ==> LessEq(u, Highest(c, v, rounds))
  {
    if rounds != [] {
      var n := |rounds|;
      var init, top := rounds[..n - 1], Highest(c, v, rounds);
      HighestIsMaximum(c, v, init);
      TotalOrder(v, Highest(c, v, init), top);
      assert rounds[..n] == rounds;
      forall k, u | AskedFor(c, rounds, k, u) ensures LessEq(u, top) {
        if k < n - 1 {
          assert init[..k + 1] == rounds[..k + 1];
          assert AskedFor(c, init, k, u);
          TotalOrder(u, Highest(c, v, init), top);
        } else {
          TotalOrder(Highest(c, v, init), u, top);
        }
      }
      if top == Highest(c, v, init) && top != v {
        var k :| AskedFor(c, init, k, top);
        assert init[..k + 1] == rounds[..k + 1];
        assert AskedFor(c, rounds, k, top);
      } else if top != v {
        assert AskedFor(c, rounds, n - 1, top);
      }
    }
  }

  lemma GoodPrefix(c: Setting, rounds: seq<Round>, k: nat)
    requires GoodRounds(c, rounds) && k <= |rounds|
    ensures GoodRounds(c, rounds[..k])
  {
    assert forall i :: 0 <= i < k ==> rounds[..k][i] == rounds[i];
  }

  /** What the agent has after it asked: the release of the last round that began a package, if that
      fits and is higher than all before; otherwise the very file it had. */
  lemma {:induction false} TakenIff(c: Setting, installed: Installed, rounds: seq<Round>, k: nat)
    requires GoodSetting(c) && GoodRounds(c, rounds) && Started(c, installed) && k < |rounds| && rounds[k].asked
    ensures var before, offer := AgentAfter(c, installed, rounds[..k]), Offered(c, rounds[..k + 1]);
            var takes := Takes(c, Highest(c, VersionOf(installed).value, rounds[..k]), offer);
            && AgentAfter(c, installed, rounds[..k + 1]) == (if takes then FileOf(offer.value) else before)
            && (Ask(c, before, Published(c, rounds[..k + 1])).0 == Exit(OK) <==> takes)
  {
    hide Ask;
    GoodPrefix(c, rounds, k);
    GoodPrefix(c, rounds, k + 1);
    assert rounds[..k + 1][..k] == rounds[..k] && rounds[..k + 1][k] == rounds[k];
    AgentHasHighest(c, installed, rounds[..k]);
    AskedIff(c, AgentAfter(c, installed, rounds[..k]), rounds[..k + 1]);
  }

  lemma HighestStep(c: Setting, v: Version, rounds: seq<Round>, k: nat)
    requires k < |rounds|
    ensures Highest(c, v, rounds[..0]) == v
    ensures var before, offer := Highest(c, v, rounds[..k]), Offered(c, rounds[..k + 1]);
            var takes := rounds[k].asked && Takes(c, before, offer);
            Highest(c, v, rounds[..k + 1]) == if takes then offer.value.version else before
  {
    assert rounds[..k + 1][..k] == rounds[..k] && rounds[..k + 1][k] == rounds[k];
  }

  /** While no round completes a release for the host, the agent keeps its file. */
  lemma {:induction false} NothingReleased(c: Setting, installed: Installed, rounds: seq<Round>)
    requires GoodSetting(c) && GoodRounds(c, rounds) && Started(c, installed)
    requires forall i: nat :: i < |rounds| ==> ReleaseAt(c, rounds, i).None?
    ensures Offered(c, rounds).None? && AgentAfter(c, installed, rounds) == installed
  {
    hide Ask, ReleaseOf;
    if rounds != [] {
      var init := rounds[..|rounds| - 1];
      GoodInit(c, rounds);
      assert rounds[..|init| + 1] == rounds;
      forall i: nat | i < |init| ensures ReleaseAt(c, init, i).None? {
        assert init[..i + 1] == rounds[..i + 1] && ReleaseAt(c, rounds, i).None?;
      }
      assert ReleaseAt(c, rounds, |init|).None?;
      NothingReleased(c, installed, init);
      AskedIff(c, installed, rounds);
    }
  }

  /** A release is lost for an agent that did not ask before a later round began a package and failed
      to complete it: the agent keeps its file. */
  lemma {:induction false} SpoiledIsLost(c: Setting, installed: Installed, first: Round, second: Round)
    requires GoodSetting(c) && GoodRounds(c, [first, second]) && Started(c, installed)
    requires !first.asked && NewPackage(c, second).Some? && ReleaseOf(c, [first, second]).None?
    ensures AgentAfter(c, installed, [first, second]) == installed
  {
    hide Ask;
    var rounds := [first, second];
    assert rounds[..1] == [first] && [first][..0] == [];
    assert AgentAfter(c, installed, [first]) == installed;
    assert Offered(c, rounds).None?;
    AskedIff(c, installed, rounds);
  }

  /** An agent that asks only after the second of two rounds gets the release of the second, also when
      a reload in between made it lower than the first. */
  lemma {:induction false} UnaskedIsLost(c: Setting, installed: Installed, first: Round, second: Round)
    requires GoodSetting(c) && GoodRounds(c, [first, second]) && Started(c, installed)
    requires !first.asked && second.asked && NewPackage(c, second).Some?
    requires Takes(c, VersionOf(installed).value, ReleaseOf(c, [first, second]))
    ensures AgentAfter(c, installed, [first, second]) == FileOf(ReleaseOf(c, [first, second]).value)
    ensures VersionOf(AgentAfter(c, installed, [first, second])) == Some(ReleaseOf(c, [first, second]).value.version)
  {
    hide Ask;
    var rounds := [first, second];
    assert rounds[..1] == [first] && [first][..0] == [];
    assert AgentAfter(c, installed, [first]) == installed;
    AskedIff(c, installed, rounds);
    OfferStarts(c, installed, rounds);
  }

  // ---------- which packages are installed ----------

  /** The attempt after round j installs the package with this checksum. */
  ghost predicate Installs(c: Setting, installed: Installed, rounds: seq<Round>, j: nat, checksum: string) {
    && j < |rounds| && rounds[j].asked && Published(c, rounds[..j + 1]).package == Some(checksum)
    && Ask(c, AgentAfter(c, installed, rounds[..j]), Published(c, rounds[..j + 1])).0 == Exit(OK)
  }

  /** The agent asks after round j, when the package of round k is still there and its release fits and
      is higher than everything the agent has had. */
  ghost predicate InTime(c: Setting, installed: Installed, rounds: seq<Round>, k: nat, j: nat)
    requires VersionOf(installed).Some?
  {
    && StillThere(c, rounds, k, j) && rounds[j].asked
    && Takes(c, Highest(c, VersionOf(installed).value, rounds[..j]), ReleaseAt(c, rounds, k))
  }

  lemma SamePackage(c: Setting, rounds: seq<Round>, i: nat, j: nat)
    requires GoodRounds(c, rounds) && i < |rounds| && j < |rounds|
    requires NewPackage(c, rounds[i]).Some? && NewPackage(c, rounds[i]) == NewPackage(c, rounds[j])
    ensures i == j
  {
  }

  /** The package of round k is installed by the attempt after round j exactly when that is in time. */
  lemma {:induction false} InstallsIff(c: Setting, installed: Installed, rounds: seq<Round>, k: nat, j: nat)
    requires GoodSetting(c) && GoodRounds(c, rounds) && Started(c, installed)
    requires k < |rounds| && NewPackage(c, rounds[k]).Some?
    ensures Installs(c, installed, rounds, j, NewPackage(c, rounds[k]).value) <==> InTime(c, installed, rounds, k, j)
  {
    hide Ask, ReleaseOf, Fits;
    if j < |rounds| && rounds[j].asked {
      TakenIff(c, installed, rounds, j);
      GoodPrefix(c, rounds, j + 1);
      CoherentIffOffered(c, rounds[..j + 1]);
      if StillThere(c, rounds, k, j) {
        OfferStays(c, rounds, k, j);
        CheckOffer(c, rounds, k, j);
      } else if Offered(c, rounds[..j + 1]).Some? {
        var i := OfferFrom(c, rounds, j);
        if NewPackage(c, rounds[k]) == NewPackage(c, rounds[i]) {
          SamePackage(c, rounds, k, i);
        }
      }
    }
  }

  lemma CheckOffer(c: Setting, rounds: seq<Round>, k: nat, j: nat)
    requires StillThere(c, rounds, k, j) && Offered(c, rounds[..j + 1]) == ReleaseAt(c, rounds, k)
    ensures Offered(c, rounds[..j + 1]).Some? ==>
              NewPackage(c, rounds[k]) == Some(Offered(c, rounds[..j + 1]).value.checksum)
  {
    if Offered(c, rounds[..j + 1]).Some? {
      ReleaseChecksum(c, rounds[..k + 1]);
      assert rounds[..k + 1][k] == rounds[k];
    }
  }

  // ---------- from a change to the agent ----------

  /** The package of round k has the files of the items of that round. */
  ghost predicate Carries(c: Setting, rounds: seq<Round>, k: nat, item: M.Item) {
    k < |rounds| && item in rounds[k].items && NewPackage(c, rounds[k]).Some?
  }

  /** Some package with the item is installed. */
  ghost predicate ChangeInstalled(c: Setting, installed: Installed, rounds: seq<Round>, item: M.Item) {
    exists k: nat, j: nat :: Carries(c, rounds, k, item)
                          && Installs(c, installed, rounds, j, NewPackage(c, rounds[k]).value)
  }

  /** A change is ever installed exactly when, after some round j, the agent asks for the package of a
      round k with the change that is still there, and the release of that round fits and is higher than
      everything the agent has had by then. */
  lemma {:induction false} ChangeInstalledIff(c: Setting, installed: Installed, rounds: seq<Round>, item: M.Item)
    requires GoodSetting(c) && GoodRounds(c, rounds) && Started(c, installed)
    ensures ChangeInstalled(c, installed, rounds, item) <==>
            exists k: nat, j: nat :: Carries(c, rounds, k, item) && InTime(c, installed, rounds, k, j)
  {
    forall k: nat, j: nat | Carries(c, rounds, k, item)
      ensures Installs(c, installed, rounds, j, NewPackage(c, rounds[k]).value) <==> InTime(c, installed, rounds, k, j)
    {
      InstallsIff(c, installed, rounds, k, j);
    }
  }

  /** Two rounds, the agent asking after both: it takes the release of the first, and that of the
      second is not higher. */
  ghost predicate LowerSecond(c: Setting, installed: Installed, first: Round, second: Round)
    requires VersionOf(installed).Some?
  {
    && first.asked && second.asked && NewPackage(c, first).Some? && NewPackage(c, second).Some?
    && Takes(c, VersionOf(installed).value, ReleaseOf(c, [first])) && ReleaseOf(c, [first, second]).Some?
    && LessEq(ReleaseOf(c, [first, second]).value.version, ReleaseOf(c, [first]).value.version)
  }

  lemma StartedHasVersion(c: Setting, installed: Installed)
    requires Started(c, installed)
    ensures VersionOf(installed).Some?
  {
  }

  lemma FirstTaken(c: Setting, installed: Installed, first: Round, second: Round)
    requires GoodSetting(c) && GoodRounds(c, [first, second]) && Started(c, installed)
    requires LowerSecond(c, installed, first, second)
    ensures AgentAfter(c, installed, [first]) == FileOf(ReleaseOf(c, [first]).value)
    ensures Highest(c, VersionOf(installed).value, [first]) == ReleaseOf(c, [first]).value.version
  {
    hide Ask, AgentAfter, ReleaseOf, Fits, GoodSetting, GoodRounds, Started, Highest, FileOf;
    var rounds := [first, second];
    assert rounds[..1] == [first] && [first][..0] == [] && rounds[..0] == [];
    StartedHasVersion(c, installed);
    HighestStep(c, VersionOf(installed).value, rounds, 0);
    TakenIff(c, installed, rounds, 0);
  }

  lemma SecondNotTaken(c: Setting, installed: Installed, first: Round, second: Round)
    requires VersionOf(installed).Some? && LowerSecond(c, installed, first, second)
    requires Highest(c, VersionOf(installed).value, [first]) == ReleaseOf(c, [first]).value.version
    ensures !Takes(c, Highest(c, VersionOf(installed).value, [first]), ReleaseOf(c, [first, second]))
  {
    hide ReleaseOf, Fits, Highest;
    TotalOrder(ReleaseOf(c, [first, second]).value.version, ReleaseOf(c, [first]).value.version,
               VersionOf(installed).value);
  }

  /** Then the second release is not installed, nor a change that only its package has. */
  lemma {:induction false} LowerIsIgnored(c: Setting, installed: Installed, first: Round, second: Round, item: M.Item)
    requires GoodSetting(c) && GoodRounds(c, [first, second]) && Started(c, installed)
    requires LowerSecond(c, installed, first, second) && item !in first.items
    ensures AgentAfter(c, installed, [first]) == FileOf(ReleaseOf(c, [first]).value)
    ensures AgentAfter(c, installed, [first, second]) == FileOf(ReleaseOf(c, [first]).value)
    ensures Offered(c, [first, second]) == ReleaseOf(c, [first, second])
    ensures !ChangeInstalled(c, installed, [first, second], item)
  {
    hide Ask, AgentAfter, ReleaseOf, Takes, GoodSetting, GoodRounds, Started, Highest, ChangeInstalled, FileOf;
    var rounds := [first, second];
    assert rounds[..1] == [first] && rounds[..2] == rounds;
    StartedHasVersion(c, installed);
    FirstTaken(c, installed, first, second);
    SecondNotTaken(c, installed, first, second);
    TakenIff(c, installed, rounds, 1);
    ChangeInstalledIff(c, installed, rounds, item);
    forall k: nat, j: nat | Carries(c, rounds, k, item) ensures !InTime(c, installed, rounds, k, j) {
      assert k == 1;
    }
  }

  /** The item's configVersion is at most the build of the release. */
  lemma {:induction false} ItemInRelease(c: Setting, rounds: seq<Round>, item: M.Item)
    requires rounds != [] && ReleaseOf(c, rounds).Some?
    requires item in rounds[|rounds| - 1].items && M.Counts(item, c.host)
    ensures item.configVersion.value <= ReleaseOf(c, rounds).value.version.build
  {
    KeptFrom(rounds);
    Delivery.ItemSeen(ItemsKept(rounds), item, c.host);
    var version: int := item.configVersion.value;
    assert version in M.VersionsOf(ItemsKept(rounds), c.host);
    assert version <= MaxOf(M.VersionsOf(ItemsKept(rounds), c.host));
  }

  /** The answer to a window was parsed in a round whose release fits and is higher than everything the
      agent has had, and the agent asked right after it. */
  ghost predicate Handled(c: Setting, installed: Installed, rounds: seq<Round>, w: D.Window, alertd: Delivery.Alertd)
    requires VersionOf(installed).Some?
  {
    exists k: nat :: k < |rounds| && rounds[k].items == alertd(w.fromTime, w.toTime)
                  && NewPackage(c, rounds[k]).Some? && InTime(c, installed, rounds, k, k)
  }

  /** The agent installed a package with the item, and has its release right after. */
  ghost predicate Reached(c: Setting, installed: Installed, rounds: seq<Round>, k: nat, item: M.Item)
    requires item.configVersion.Some?
  {
    && Carries(c, rounds, k, item) && Installs(c, installed, rounds, k, NewPackage(c, rounds[k]).value)
    && ReleaseAt(c, rounds, k).Some?
    && item.configVersion.value <= ReleaseAt(c, rounds, k).value.version.build
    && AgentAfter(c, installed, rounds[..k + 1]) == FileOf(ReleaseAt(c, rounds, k).value)
  }

  /** A change is installed as soon as one window that has it was handled, whatever fails in other
      rounds. */
  lemma {:induction false} ChangeReachesAgent(c: Setting, installed: Installed, rounds: seq<Round>, w: D.Window,
                                              alertd: Delivery.Alertd, item: M.Item, changed: int, lag: nat)
    requires GoodSetting(c) && GoodRounds(c, rounds) && Started(c, installed) && M.Counts(item, c.host)
    requires Delivery.Reports(alertd, item, changed, lag) && D.Spans(changed, lag, w)
    requires Handled(c, installed, rounds, w, alertd)
    ensures exists k: nat :: Reached(c, installed, rounds, k, item)
  {
    hide Ask, AgentAfter, ReleaseOf, Offered, Fits;
    var k: nat :| k < |rounds| && rounds[k].items == alertd(w.fromTime, w.toTime)
               && NewPackage(c, rounds[k]).Some? && InTime(c, installed, rounds, k, k);
    assert item in alertd(w.fromTime, w.toTime);
    InstallsIff(c, installed, rounds, k, k);
    TakenIff(c, installed, rounds, k);
    OfferStays(c, rounds, k, k);
    assert rounds[..k + 1][k] == rounds[k];
    ItemInRelease(c, rounds[..k + 1], item);
    assert Reached(c, installed, rounds, k, item);
  }

  /** So every change visible within 130 s is installed by an agent for which the windows of the daemon
      that have it were handled. */
  lemma {:induction false} EveryChangeReachesAgent(c: Setting, installed: Installed, rounds: seq<Round>, now: int,
                                                   iterations: seq<D.Iteration>, alertd: Delivery.Alertd,
                                                   item: M.Item, changed: int, lag: nat)
    requires GoodSetting(c) && GoodRounds(c, rounds) && Started(c, installed) && M.Counts(item, c.host)
    requires Delivery.Reports(alertd, item, changed, lag) && lag <= D.OVERLAP
    requires var ws := D.RunAll(now, iterations).windows;
             && ws != [] && D.StartOf(now) <= changed && changed + lag <= D.Latest(ws)
             && forall w :: w in ws && D.Spans(changed, lag, w) ==> Handled(c, installed, rounds, w, alertd)
    ensures exists k: nat :: Reached(c, installed, rounds, k, item)
  {
    hide Reached, Handled;
    var ws := D.RunAll(now, iterations).windows;
    D.NoLagGap(now, iterations, changed, lag);
    var i :| 0 <= i < |ws| && D.Spans(changed, lag, ws[i]);
    assert ws[i] in ws;
    ChangeReachesAgent(c, installed, rounds, ws[i], alertd, item, changed, lag);
  }
}
