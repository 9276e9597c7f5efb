/** The manager over time: each round fetches one window, packages it, copies it to the release server
    and may reload the module. What the release server then holds for one host. */
module Publishing {
  import opened Wrappers
  import opened Versions
  import opened UAgent
  import opened Release
  import opened Packager
  import opened VersionJson
  import M = UpdateManager

  /** One round: the items that were parsed, how packaging the host went, whether the host's agent asks
      before the next round, and whether the module is reloaded before it. */
  datatype Round = Round(items: seq<M.Item>, calls: Calls, asked: bool, reloaded: bool)

  /** The host and the agent that asks for its releases: its platform, its location, whether the server
      sends a Content-Length, and what json.loads makes of a text. */
  datatype Setting = Setting(tmp: string, host: M.Host, platform: string, url: string, header: bool,
                             loads: string -> Doc)

  // ---------- what happens ----------

  /** The fetches since the module was loaded, the last round's included. */
  function Fetches(rounds: seq<Round>): (r: seq<seq<M.Item>>)
    requires rounds != []
    ensures r != [] && r[|r| - 1] == rounds[|rounds| - 1].items
  {
    var init := rounds[..|rounds| - 1];
    (if init != [] && !init[|init| - 1].reloaded then Fetches(init) else []) + [rounds[|rounds| - 1].items]
  }

  function ItemsKept(rounds: seq<Round>): seq<M.Item>
    requires rounds != []
  {
    M.AllItems(Fetches(rounds))
  }

  /** What the last round leaves in the host's temporary directory. */
  function Left(c: Setting, rounds: seq<Round>): Files
    requires rounds != []
  {
    PackHost(c.tmp, M.FetchAll(c.tmp, Fetches(rounds)), c.host, rounds[|rounds| - 1].calls)
  }

  /** The published files of the host. */
  function Published(c: Setting, rounds: seq<Round>): Files {
    if rounds == [] then NOTHING
    else Deploy(Published(c, rounds[..|rounds| - 1]), Left(c, rounds))
  }

  // ---------- the releases ----------

  function MaxOf(xs: seq<int>): (m: int)
    requires xs != []
    ensures M.IsMaximum(m, xs)
  {
    if |xs| == 1 then xs[0]
    else
      var more := MaxOf(xs[1..]);
      assert forall x :: x in xs <==> x == xs[0] || x in xs[1..];
      if more > xs[0] then more else xs[0]
  }

  /** The checksum of the package of a round in which one was begun for the host. */
  function NewPackage(c: Setting, r: Round): Option<string> {
    if M.Mentions(r.items, c.host) && !r.calls.tar.NoTar? then Some(r.calls.tar.checksum) else None
  }

  /** The version and platform that the last round tries to release: the largest configVersion kept for
      the host as build, and its first platform. */
  function VersionFor(c: Setting, rounds: seq<Round>): Option<(Version, string)>
    requires rounds != []
  {
    var cmdb, items := rounds[|rounds| - 1].calls.cmdb, ItemsKept(rounds);
    if cmdb.None? || M.PlatformsOf(items, c.host) == [] || M.VersionsOf(items, c.host) == [] then None
    else
      var n := cmdb.value;
      Some((Version(n.major, n.minor, n.patch, MaxOf(M.VersionsOf(items, c.host))), M.PlatformsOf(items, c.host)[0]))
  }

  /** A release, with the checksum of its package. */
  datatype Offer = Offer(version: Version, platform: string, checksum: string)

  /** The release of the last round: None unless the whole of packager succeeds for the host. */
  function ReleaseOf(c: Setting, rounds: seq<Round>): Option<Offer>
    requires rounds != []
  {
    var last := rounds[|rounds| - 1];
    var checksum, version := NewPackage(c, last), VersionFor(c, rounds);
    if && checksum.Some? && last.calls.tar.Whole? && last.calls.packageSigning.Signed?
       && last.calls.jsonSigning.Signed? && version.Some?
    then Some(Offer(version.value.0, version.value.1, checksum.value))
    else None
  }

  /** What can be installed: the release of the last round that began a package, if it has one. */
  function Offered(c: Setting, rounds: seq<Round>): Option<Offer> {
    if rounds == [] then None
    else if NewPackage(c, rounds[|rounds| - 1]).None? then Offered(c, rounds[..|rounds| - 1])
    else ReleaseOf(c, rounds)
  }

  // ---------- the assumptions ----------

  /** A host with single path components, an https location, and a json.loads that agrees with the texts
      that are read here. */
  ghost predicate GoodSetting(c: Setting) {
    && M.GoodTmp(c.tmp) && M.SingleNames(c.host) && IsHttps(c.url + "/version.json")
    && forall text :: ReadText(text).Some? ==> c.loads(text) == ReadText(text).value
  }

  /** The item has a platform that JSON writes as it is. */
  predicate PlainPlatform(item: M.Item) {
    item.platform.Some? ==> Unescaped(item.platform.value)
  }

  /** No other host uses the key, and the host's platforms are plain. */
  ghost predicate GoodRound(c: Setting, r: Round) {
    && M.CleanPaths(r.items) && M.OwnItems(r.items, c.host)
    && (!r.calls.tar.NoTar? ==> Unescaped(r.calls.tar.checksum))
    && forall i :: i in r.items && M.Counts(i, c.host) ==> PlainPlatform(i)
  }

  /** Moreover, no two packages have the same checksum. */
  ghost predicate GoodRounds(c: Setting, rounds: seq<Round>) {
    && (forall i :: 0 <= i < |rounds| ==> GoodRound(c, rounds[i]))
    && (forall i, j :: 0 <= i < j < |rounds| && NewPackage(c, rounds[i]).Some? ==>
          NewPackage(c, rounds[i]) != NewPackage(c, rounds[j]))
  }

  lemma GoodInit(c: Setting, rounds: seq<Round>)
    requires GoodRounds(c, rounds) && rounds != []
    ensures GoodRounds(c, rounds[..|rounds| - 1]) && GoodRound(c, rounds[|rounds| - 1])
  {
    var init := rounds[..|rounds| - 1];
    assert forall i :: 0 <= i < |init| ==> init[i] == rounds[i];
  }

  // ---------- what a round leaves ----------

  lemma {:induction false} MaximumIsUnique(a: int, b: int, xs: seq<int>)
    requires M.IsMaximum(a, xs) && M.IsMaximum(b, xs)
    ensures a == b
  {
    assert a <= b && b <= a;
  }

  lemma AllItemsSnoc(fetches: seq<seq<M.Item>>, items: seq<M.Item>)
    ensures M.AllItems(fetches + [items]) == M.AllItems(fetches) + items
  {
    assert (fetches + [items])[..|fetches|] == fetches;
  }

  /** What is kept comes from the rounds, the last one included. */
  lemma {:induction false} KeptFrom(rounds: seq<Round>)
    requires rounds != []
    ensures forall i :: i in rounds[|rounds| - 1].items ==> i in ItemsKept(rounds)
    ensures forall i :: i in ItemsKept(rounds) ==> exists k :: 0 <= k < |rounds| && i in rounds[k].items
  {
    var init, last := rounds[..|rounds| - 1], rounds[|rounds| - 1];
    if init != [] && !init[|init| - 1].reloaded {
      AllItemsSnoc(Fetches(init), last.items);
      KeptFrom(init);
      forall i | i in ItemsKept(rounds) ensures exists k :: 0 <= k < |rounds| && i in rounds[k].items {
        if i in ItemsKept(init) {
          var k :| 0 <= k < |init| && i in init[k].items;
          assert rounds[k] == init[k];
        } else {
          assert i in rounds[|rounds| - 1].items;
        }
      }
    } else {
      AllItemsSnoc([], last.items);
      assert [] + [last.items] == [last.items];
      assert M.AllItems([]) + last.items == last.items;
    }
  }

  /** After a reload, only the last round's items are kept. */
  lemma KeptAfterReload(rounds: seq<Round>)
    requires rounds != [] && (|rounds| == 1 || rounds[|rounds| - 2].reloaded)
    ensures ItemsKept(rounds) == rounds[|rounds| - 1].items
  {
    var items := rounds[|rounds| - 1].items;
    AllItemsSnoc([], items);
    assert [] + [items] == [items];
    assert Fetches(rounds) == [items];
  }

  /** So a complete round with one configuration of the host releases its version. */
  lemma {:induction false} LoneRelease(c: Setting, rounds: seq<Round>, version: int, platform: string)
    requires rounds != [] && (|rounds| == 1 || rounds[|rounds| - 2].reloaded)
    requires var r := rounds[|rounds| - 1];
             && r.calls.tar.Whole? && r.calls.cmdb.Some?
             && r.calls.packageSigning.Signed? && r.calls.jsonSigning.Signed?
             && M.Mentions(r.items, c.host)
             && M.VersionsOf(r.items, c.host) == [version] && M.PlatformsOf(r.items, c.host) == [platform]
    ensures var calls := rounds[|rounds| - 1].calls;
            ReleaseOf(c, rounds) == Some(Offer(Version(calls.cmdb.value.major, calls.cmdb.value.minor,
                                                       calls.cmdb.value.patch, version), platform, calls.tar.checksum))
  {
    hide ItemsKept, Fetches, M.Mentions, M.VersionsOf, M.PlatformsOf;
    KeptAfterReload(rounds);
    assert VersionFor(c, rounds).Some?;
  }

  lemma KeptAreGood(c: Setting, rounds: seq<Round>)
    requires GoodRounds(c, rounds) && rounds != []
    ensures M.OwnItems(ItemsKept(rounds), c.host)
    ensures forall i :: i in ItemsKept(rounds) && M.Counts(i, c.host) ==> PlainPlatform(i)
  {
    KeptFrom(rounds);
    forall i | i in ItemsKept(rounds)
      ensures M.CountsUnder(i, M.KeyOf(c.host)) ==> M.HostOf(i) == Some(c.host)
      ensures M.Counts(i, c.host) ==> PlainPlatform(i)
    {
      var k :| 0 <= k < |rounds| && i in rounds[k].items;
      assert GoodRound(c, rounds[k]);
    }
  }

  lemma {:induction false} PlatformsFrom(items: seq<M.Item>, h: M.Host)
    requires forall i :: i in items && M.Counts(i, h) ==> PlainPlatform(i)
    ensures forall p :: p in M.PlatformsOf(items, h) ==> Unescaped(p)
  {
    if items != [] {
      var init, last := items[..|items| - 1], items[|items| - 1];
      assert last in items && forall i :: i in init ==> i in items;
      PlatformsFrom(init, h);
    }
  }

  lemma LastFetched(c: Setting, rounds: seq<Round>)
    requires GoodSetting(c) && GoodRounds(c, rounds) && rounds != []
    ensures var s := M.FetchAll(c.tmp, Fetches(rounds));
            && (M.HostDir(c.tmp, c.host) in s.dirs <==> M.Mentions(rounds[|rounds| - 1].items, c.host))
            && M.Folded(s, ItemsKept(rounds), c.host)
  {
    hide M.FetchAll, M.HostDir;
    assert GoodRound(c, rounds[|rounds| - 1]);
    M.DirAfterFetch(c.tmp, Fetches(rounds), c.host);
    KeptAreGood(c, rounds);
    M.FetchesFold(c.tmp, Fetches(rounds), c.host);
  }

  /** The version.json of a round, and its platform. */
  lemma {:induction false} JsonOfRound(c: Setting, rounds: seq<Round>, checksum: string)
    requires GoodSetting(c) && GoodRounds(c, rounds) && rounds != []
    requires M.Mentions(rounds[|rounds| - 1].items, c.host)
    ensures var s := M.FetchAll(c.tmp, Fetches(rounds));
            JsonFor(c.tmp, s, c.host, rounds[|rounds| - 1].calls.cmdb, checksum) ==
            match VersionFor(c, rounds)
            case None => None
            case Some(v) => Some(PublishedText(v.0, v.1, checksum))
    ensures VersionFor(c, rounds).Some? ==> Unescaped(VersionFor(c, rounds).value.1)
  {
    var items := ItemsKept(rounds);
    LastFetched(c, rounds);
    KeptAreGood(c, rounds);
    PlatformsFrom(items, c.host);
    if rounds[|rounds| - 1].calls.cmdb.Some? && M.PlatformsOf(items, c.host) != [] {
      PlatformNeedsVersion(items, c.host);
      var versions := M.FetchAll(c.tmp, Fetches(rounds)).versions;
      MaximumIsUnique(versions[M.KeyOf(c.host)], MaxOf(M.VersionsOf(items, c.host)), M.VersionsOf(items, c.host));
    }
  }

  /** The files of a complete release. */
  function ReleaseFiles(o: Offer): Files {
    var json := Some(PublishedText(o.version, o.platform, o.checksum));
    Files(json, json, Some(o.checksum), Some(o.checksum))
  }

  /** A version.json that packager wrote for the package. */
  ghost predicate TextFor(text: string, checksum: string) {
    exists v, platform :: Unescaped(platform) && text == PublishedText(v, platform, checksum)
  }

  /** What is left when packaging began but did not complete. */
  ghost predicate Incomplete(left: Files, checksum: string) {
    && left.package == Some(checksum)
    && (left.jsonSig.None? || left.packageSig.None?)
    && (left.json.Some? ==> TextFor(left.json.value, checksum))
    && (left.jsonSig.Some? ==> left.jsonSig == left.json)
    && (left.packageSig.Some? ==> left.packageSig == left.package)
  }

  lemma {:induction false} RoundLeaves(c: Setting, rounds: seq<Round>)
    requires GoodSetting(c) && GoodRounds(c, rounds) && rounds != []
    ensures match NewPackage(c, rounds[|rounds| - 1])
            case None => Left(c, rounds) == NOTHING
            case Some(checksum) =>
              match ReleaseOf(c, rounds)
              case None => Incomplete(Left(c, rounds), checksum)
              case Some(o) => Left(c, rounds) == ReleaseFiles(o) && Unescaped(o.platform) && o.checksum == checksum
  {
    hide Fetches, ItemsKept, JsonFor, VersionFor, PublishedText, M.FetchAll, M.HostDir, GoodRounds;
    LastFetched(c, rounds);
    var checksum, version := NewPackage(c, rounds[|rounds| - 1]), VersionFor(c, rounds);
    if checksum.Some? {
      JsonOfRound(c, rounds, checksum.value);
      if version.Some? {
        assert TextFor(PublishedText(version.value.0, version.value.1, checksum.value), checksum.value);
      }
    }
  }

  /** Without a version.json, only the package is left. */
  lemma NoJsonLeaves(c: Setting, rounds: seq<Round>)
    requires GoodSetting(c) && GoodRounds(c, rounds) && rounds != []
    requires NewPackage(c, rounds[|rounds| - 1]).Some? && VersionFor(c, rounds).None?
    ensures Left(c, rounds) == NOTHING.(package := NewPackage(c, rounds[|rounds| - 1]))
  {
    LastFetched(c, rounds);
    JsonOfRound(c, rounds, NewPackage(c, rounds[|rounds| - 1]).value);
  }

  /** Such a round puts its package under the release that was published. */
  lemma {:induction false} PackageUnderRelease(c: Setting, first: Round, second: Round)
    requires GoodSetting(c) && GoodRounds(c, [first, second]) && ReleaseOf(c, [first]).Some?
    requires NewPackage(c, second).Some? && VersionFor(c, [first, second]).None?
    ensures Published(c, [first, second])
         == ReleaseFiles(ReleaseOf(c, [first]).value).(package := NewPackage(c, second))
  {
    hide Left;
    var rounds := [first, second];
    GoodInit(c, rounds);
    assert rounds[..1] == [first] && [first][..0] == [];
    RoundLeaves(c, [first]);
    NoJsonLeaves(c, rounds);
    assert Published(c, [first]) == Deploy(NOTHING, Left(c, [first]));
    assert Published(c, rounds) == Deploy(Published(c, [first]), Left(c, rounds));
  }

  // ---------- which offers stay installable ----------

  ghost predicate PackageOf(c: Setting, rounds: seq<Round>, checksum: string) {
    exists i :: 0 <= i < |rounds| && NewPackage(c, rounds[i]) == Some(checksum)
  }

  ghost predicate TextOfRound(c: Setting, rounds: seq<Round>, text: string) {
    exists checksum :: TextFor(text, checksum) && PackageOf(c, rounds, checksum)
  }

  /** Every published file comes from some round. */
  ghost predicate Known(c: Setting, rounds: seq<Round>, f: Files) {
    && (f.json.Some? ==> TextOfRound(c, rounds, f.json.value))
    && (f.jsonSig.Some? ==> TextOfRound(c, rounds, f.jsonSig.value))
    && (f.package.Some? ==> PackageOf(c, rounds, f.package.value))
    && (f.packageSig.Some? ==> PackageOf(c, rounds, f.packageSig.value))
  }

  /** The files of one complete release. */
  ghost predicate Coherent(f: Files) {
    exists o: Offer :: Unescaped(o.platform) && f == ReleaseFiles(o)
  }

  lemma PackageStays(c: Setting, rounds: seq<Round>, more: seq<Round>, checksum: string)
    requires rounds <= more && PackageOf(c, rounds, checksum)
    ensures PackageOf(c, more, checksum)
  {
    var i :| 0 <= i < |rounds| && NewPackage(c, rounds[i]) == Some(checksum);
    assert more[i] == rounds[i];
  }

  lemma TextStays(c: Setting, rounds: seq<Round>, more: seq<Round>, text: string)
    requires rounds <= more && TextOfRound(c, rounds, text)
    ensures TextOfRound(c, more, text)
  {
    var checksum :| TextFor(text, checksum) && PackageOf(c, rounds, checksum);
    PackageStays(c, rounds, more, checksum);
  }

  lemma KnownStays(c: Setting, rounds: seq<Round>, more: seq<Round>, f: Files)
    requires rounds <= more && Known(c, rounds, f)
    ensures Known(c, more, f)
  {
    if f.json.Some? { TextStays(c, rounds, more, f.json.value); }
    if f.jsonSig.Some? { TextStays(c, rounds, more, f.jsonSig.value); }
    if f.package.Some? { PackageStays(c, rounds, more, f.package.value); }
    if f.packageSig.Some? { PackageStays(c, rounds, more, f.packageSig.value); }
  }

  lemma KnownTogether(c: Setting, rounds: seq<Round>, f: Files, left: Files)
    requires Known(c, rounds, f) && Known(c, rounds, left)
    ensures Known(c, rounds, Deploy(f, left))
  {
  }

  lemma LeftIsKnown(c: Setting, rounds: seq<Round>)
    requires GoodSetting(c) && GoodRounds(c, rounds) && rounds != []
    ensures Known(c, rounds, Left(c, rounds))
  {
    var last := rounds[|rounds| - 1];
    RoundLeaves(c, rounds);
    if NewPackage(c, last).Some? {
      var checksum := NewPackage(c, last).value;
      assert PackageOf(c, rounds, checksum);
      assert forall v, p :: Unescaped(p) ==> TextFor(PublishedText(v, p, checksum), checksum);
    }
  }

  lemma {:induction false} PublishedIsKnown(c: Setting, rounds: seq<Round>)
    requires GoodSetting(c) && GoodRounds(c, rounds)
    ensures Known(c, rounds, Published(c, rounds))
  {
    if rounds != [] {
      var init := rounds[..|rounds| - 1];
      GoodInit(c, rounds);
      PublishedIsKnown(c, init);
      KnownStays(c, init, rounds, Published(c, init));
      LeftIsKnown(c, rounds);
      KnownTogether(c, rounds, Published(c, init), Left(c, rounds));
    }
  }

  /** A published text has its checksum in it. */
  lemma {:induction false} TextHasChecksum(text: string, a: string, b: string)
    requires Unescaped(a) && Unescaped(b) && TextFor(text, a) && TextFor(text, b)
    ensures a == b
  {
    var v, p :| Unescaped(p) && text == PublishedText(v, p, a);
    var w, q :| Unescaped(q) && text == PublishedText(w, q, b);
    TextRead(v, p, a);
    TextRead(w, q, b);
    assert FieldsOf(Publish(v, p, a))[2].1 == a && FieldsOf(Publish(w, q, b))[2].1 == b;
  }

  lemma TextRead(v: Version, platform: string, checksum: string)
    requires Unescaped(platform) && Unescaped(checksum)
    ensures ReadObject(PublishedText(v, platform, checksum)) == Some(FieldsOf(Publish(v, platform, checksum)))
  {
    var d := Publish(v, platform, checksum);
    PublishedIsPlain(v, platform, checksum);
    NamesArePlain(d);
    CutObjectReads(FieldsOf(d), |TextOf(d)|);
    assert TextOf(d)[..|TextOf(d)|] == TextOf(d);
  }

  lemma PackagesArePlain(c: Setting, rounds: seq<Round>, checksum: string)
    requires GoodRounds(c, rounds) && PackageOf(c, rounds, checksum)
    ensures Unescaped(checksum)
  {
    var i :| 0 <= i < |rounds| && NewPackage(c, rounds[i]) == Some(checksum);
    assert GoodRound(c, rounds[i]);
  }

  /** A text for a new package does not come from an earlier round. */
  lemma NewTextIsNew(c: Setting, rounds: seq<Round>, text: string, checksum: string)
    requires GoodRounds(c, rounds) && Unescaped(checksum) && !PackageOf(c, rounds, checksum) && TextFor(text, checksum)
    ensures !TextOfRound(c, rounds, text)
  {
    if TextOfRound(c, rounds, text) {
      var other :| TextFor(text, other) && PackageOf(c, rounds, other);
      PackagesArePlain(c, rounds, other);
      TextHasChecksum(text, checksum, other);
    }
  }

  /** A round that begins a package and does not complete its release spoils whatever was published. */
  lemma {:induction false} IncompleteSpoils(c: Setting, rounds: seq<Round>, f: Files, left: Files, checksum: string)
    requires GoodRounds(c, rounds) && Known(c, rounds, f)
    requires Unescaped(checksum) && !PackageOf(c, rounds, checksum) && Incomplete(left, checksum)
    ensures !Coherent(Deploy(f, left))
  {
    forall o: Offer | Unescaped(o.platform) ensures Deploy(f, left) != ReleaseFiles(o) {
      var text := PublishedText(o.version, o.platform, checksum);
      assert TextFor(text, checksum);
      NewTextIsNew(c, rounds, text, checksum);
    }
  }

  lemma FreshPackage(c: Setting, rounds: seq<Round>)
    requires GoodRounds(c, rounds) && rounds != [] && NewPackage(c, rounds[|rounds| - 1]).Some?
    ensures !PackageOf(c, rounds[..|rounds| - 1], NewPackage(c, rounds[|rounds| - 1]).value)
  {
    var init := rounds[..|rounds| - 1];
    assert forall i :: 0 <= i < |init| ==> init[i] == rounds[i];
  }

  /** The published files are those of a complete release exactly when the last round that began a
      package for the host completed one, and then they are that release. */
  lemma {:induction false} CoherentIffOffered(c: Setting, rounds: seq<Round>)
    requires GoodSetting(c) && GoodRounds(c, rounds)
    ensures Coherent(Published(c, rounds)) <==> Offered(c, rounds).Some?
    ensures Offered(c, rounds).Some? ==>
              var o := Offered(c, rounds).value;
              Published(c, rounds) == ReleaseFiles(o) && Unescaped(o.platform) && Unescaped(o.checksum)
  {
    if rounds == [] {
      assert NOTHING.json.None?;
    } else {
      var init, last := rounds[..|rounds| - 1], rounds[|rounds| - 1];
      GoodInit(c, rounds);
      CoherentIffOffered(c, init);
      RoundLeaves(c, rounds);
      if NewPackage(c, last).Some? && ReleaseOf(c, rounds).None? {
        FreshPackage(c, rounds);
        PublishedIsKnown(c, init);
        IncompleteSpoils(c, init, Published(c, init), Left(c, rounds), NewPackage(c, last).value);
      }
    }
  }

  // ---------- where an offer comes from ----------

  /** The release of round k. */
  function ReleaseAt(c: Setting, rounds: seq<Round>, k: nat): Option<Offer>
    requires k < |rounds|
  {
    ReleaseOf(c, rounds[..k + 1])
  }

  /** No round after k, up to j, began a package for the host. */
  ghost predicate StillThere(c: Setting, rounds: seq<Round>, k: nat, j: nat) {
    k <= j < |rounds| && forall i :: k < i <= j ==> NewPackage(c, rounds[i]).None?
  }

  lemma {:induction false} OfferStays(c: Setting, rounds: seq<Round>, k: nat, j: nat)
    requires StillThere(c, rounds, k, j) && NewPackage(c, rounds[k]).Some?
    ensures Offered(c, rounds[..j + 1]) == ReleaseAt(c, rounds, k)
    decreases j
  {
    hide ReleaseOf;
    assert rounds[..j + 1][j] == rounds[j] && rounds[..j + 1][..j] == rounds[..j];
    if j > k {
      OfferStays(c, rounds, k, j - 1);
    }
  }

  lemma ReleaseChecksum(c: Setting, rounds: seq<Round>)
    requires rounds != [] && ReleaseOf(c, rounds).Some?
    ensures NewPackage(c, rounds[|rounds| - 1]) == Some(ReleaseOf(c, rounds).value.checksum)
  {
  }

  lemma {:induction false} OfferFrom(c: Setting, rounds: seq<Round>, j: nat) returns (k: nat)
    requires j < |rounds| && Offered(c, rounds[..j + 1]).Some?
    ensures StillThere(c, rounds, k, j) && ReleaseAt(c, rounds, k) == Offered(c, rounds[..j + 1])
    ensures NewPackage(c, rounds[k]) == Some(Offered(c, rounds[..j + 1]).value.checksum)
    decreases j
  {
    hide ReleaseOf;
    assert rounds[..j + 1][j] == rounds[j] && rounds[..j + 1][..j] == rounds[..j];
    if NewPackage(c, rounds[j]).Some? {
      ReleaseChecksum(c, rounds[..j + 1]);
      k := j;
    } else {
      k := OfferFrom(c, rounds, j - 1);
    }
  }

  // ---------- what the reload does ----------

  lemma {:induction false} VersionsGrow(a: seq<M.Item>, b: seq<M.Item>, h: M.Host)
    ensures forall v :: v in M.VersionsOf(a, h) ==> v in M.VersionsOf(a + b, h)
    decreases |b|
  {
    if b == [] {
      assert a + b == a;
    } else {
      assert (a + b)[..|a + b| - 1] == a + b[..|b| - 1];
      VersionsGrow(a, b[..|b| - 1], h);
    }
  }

  /** Without a reload in between, the build of a release is never lower than that of the one before. */
  lemma {:induction false} BuildsRise(c: Setting, rounds: seq<Round>, k: nat)
    requires k + 1 < |rounds| && !rounds[k].reloaded
    requires ReleaseAt(c, rounds, k).Some? && ReleaseAt(c, rounds, k + 1).Some?
    ensures ReleaseAt(c, rounds, k).value.version.build <= ReleaseAt(c, rounds, k + 1).value.version.build
  {
    var first, second := rounds[..k + 1], rounds[..k + 2];
    assert second[..|second| - 1] == first;
    AllItemsSnoc(Fetches(first), second[|second| - 1].items);
    VersionsGrow(ItemsKept(first), second[|second| - 1].items, c.host);
    var build: int := ReleaseAt(c, rounds, k).value.version.build;
    assert build in M.VersionsOf(ItemsKept(first), c.host);
    assert build in M.VersionsOf(ItemsKept(second), c.host);
  }
}
