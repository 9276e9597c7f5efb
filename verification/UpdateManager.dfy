/** update_manager.py: fetcher folds the changed configurations into per-host versions, platforms
    and install.conf files under TMP_DIR. */
module UpdateManager {
  import opened Wrappers
  import opened Text

  const INSTALL_CONF := "install.conf"
  const HEADER := "[copy]\n"

  // ---------- names and paths ----------

  function GenerateKey(org: string, sys: string, hostname: string): string {
    org + "_" + sys + "_" + hostname
  }

  datatype Host = Host(org: string, sys: string, name: string)

  function KeyOf(h: Host): string {
    GenerateKey(h.org, h.sys, h.name)
  }

  lemma PrefixUnique(a: string, b: string, c: string, d: string, sep: char)
    requires sep !in a && sep !in c && a + [sep] + b == c + [sep] + d
    ensures a == c && b == d
  {
    FreeOfChar(a, sep);
    FreeOfChar(c, sep);
    FindAfterFree(a, [sep], b);
    FindAfterFree(c, [sep], d);
    var s, t := a + [sep] + b, c + [sep] + d;
    assert s[..|a|] == a && t[..|c|] == c;
    assert s[|a| + 1..] == b && t[|c| + 1..] == d;
  }

  /** Keys of hosts whose org and sys contain no underscore are equal only for equal hosts. */
  lemma KeyInjective(h: Host, h': Host)
    requires '_' !in h.org && '_' !in h.sys && '_' !in h'.org && '_' !in h'.sys
    ensures KeyOf(h) == KeyOf(h') <==> h == h'
  {
    var rest, rest' := h.sys + ['_'] + h.name, h'.sys + ['_'] + h'.name;
    KeyText(h);
    KeyText(h');
    if KeyOf(h) == KeyOf(h') {
      PrefixUnique(h.org, rest, h'.org, rest', '_');
      PrefixUnique(h.sys, h.name, h'.sys, h'.name, '_');
    }
  }

  lemma KeyText(h: Host)
    ensures KeyOf(h) == h.org + ['_'] + (h.sys + ['_'] + h.name)
  {
    assert h.org + "_" + h.sys + "_" + h.name == h.org + ['_'] + (h.sys + ['_'] + h.name);
  }

  /** No other host has the key of this one. */
  ghost predicate KeyIsOwn(h: Host) {
    forall h': Host :: KeyOf(h') == KeyOf(h) ==> h' == h
  }

  predicate NoUnderscore(h: Host) {
    '_' !in h.org && '_' !in h.sys && '_' !in h.name
  }

  lemma Underscores(h: Host)
    ensures multiset(KeyOf(h))['_'] == multiset(h.org)['_'] + multiset(h.sys)['_'] + multiset(h.name)['_'] + 2
  {
    KeyText(h);
    assert multiset(['_'])['_'] == 1;
    assert multiset(KeyOf(h))
        == multiset(h.org) + multiset(['_']) + (multiset(h.sys) + multiset(['_']) + multiset(h.name));
  }

  lemma MoveUnderscore(a: string, b: string, s: string)
    ensures (a + ['_'] + b) + ['_'] + s == a + ['_'] + (b + ['_'] + s)
  {
  }

  /** Another host with the same key, for one that has an underscore somewhere. */
  lemma Twin(h: Host) returns (h': Host)
    requires !NoUnderscore(h)
    ensures KeyOf(h') == KeyOf(h) && h' != h
  {
    KeyText(h);
    if '_' in h.org {
      var i :| 0 <= i < |h.org| && h.org[i] == '_';
      var a, b := h.org[..i], h.org[i + 1..];
      assert h.org == a + ['_'] + b;
      h' := Host(a, b, h.sys + ['_'] + h.name);
      MoveUnderscore(a, b, h.sys + ['_'] + h.name);
    } else if '_' in h.sys {
      var i :| 0 <= i < |h.sys| && h.sys[i] == '_';
      var a, b := h.sys[..i], h.sys[i + 1..];
      assert h.sys == a + ['_'] + b;
      h' := Host(h.org, a, b + ['_'] + h.name);
      MoveUnderscore(a, b, h.name);
    } else {
      var i :| 0 <= i < |h.name| && h.name[i] == '_';
      var a, b := h.name[..i], h.name[i + 1..];
      assert h.name == a + ['_'] + b;
      h' := Host(h.org, h.sys + ['_'] + a, b);
      MoveUnderscore(h.sys, a, b);
    }
    KeyText(h');
  }

  /** A host can be told from every other by its key exactly when none of its three ids has an
      underscore. */
  lemma {:induction false} KeyIsOwnIff(h: Host)
    ensures KeyIsOwn(h) <==> NoUnderscore(h)
  {
    if NoUnderscore(h) {
      forall h': Host | KeyOf(h') == KeyOf(h) ensures h' == h {
        Underscores(h);
        Underscores(h');
        KeyInjective(h, h');
      }
    } else {
      var h' := Twin(h);
    }
  }

  /** os.path.join of two arguments. */
  function PathJoin(a: string, b: string): string {
    if b != "" && b[0] == '/' then b
    else if a == "" || a[|a| - 1] == '/' then a + b
    else a + "/" + b
  }

  function HostDir(tmp: string, h: Host): string {
    PathJoin(PathJoin(PathJoin(tmp, h.org), h.sys), h.name)
  }

  predicate SingleNames(h: Host) {
    SingleName(h.org) && SingleName(h.sys) && SingleName(h.name)
  }

  predicate GoodTmp(tmp: string) {
    tmp != "" && tmp[|tmp| - 1] != '/'
  }

  lemma JoinPlain(a: string, b: string)
    requires GoodTmp(a) && SingleName(b)
    ensures PathJoin(a, b) == a + "/" + b && GoodTmp(PathJoin(a, b))
  {
    assert b[0] in b && b[|b| - 1] in b;
    assert (a + "/" + b)[|a + "/" + b| - 1] == b[|b| - 1];
  }

  lemma HostDirText(tmp: string, h: Host)
    requires GoodTmp(tmp) && SingleNames(h)
    ensures HostDir(tmp, h) == tmp + "/" + (h.org + "/" + (h.sys + "/" + h.name))
    ensures GoodTmp(HostDir(tmp, h))
  {
    JoinPlain(tmp, h.org);
    JoinPlain(PathJoin(tmp, h.org), h.sys);
    JoinPlain(PathJoin(PathJoin(tmp, h.org), h.sys), h.name);
  }

  lemma FilePathText(tmp: string, h: Host, f: string)
    requires GoodTmp(tmp) && SingleNames(h) && SingleName(f)
    ensures PathJoin(HostDir(tmp, h), f) == tmp + "/" + (h.org + "/" + (h.sys + "/" + (h.name + "/" + f)))
  {
    HostDirText(tmp, h);
    JoinPlain(HostDir(tmp, h), f);
  }

  /** Files of different hosts, or with different names, have different paths. */
  lemma FilePathInjective(tmp: string, h: Host, f: string, h': Host, f': string)
    requires GoodTmp(tmp) && SingleNames(h) && SingleNames(h') && SingleName(f) && SingleName(f')
    ensures PathJoin(HostDir(tmp, h), f) == PathJoin(HostDir(tmp, h'), f') <==> h == h' && f == f'
  {
    FilePathText(tmp, h, f);
    FilePathText(tmp, h', f');
    if PathJoin(HostDir(tmp, h), f) == PathJoin(HostDir(tmp, h'), f') {
      var r3, r3' := h.name + "/" + f, h'.name + "/" + f';
      var r2, r2' := h.sys + "/" + r3, h'.sys + "/" + r3';
      var r1, r1' := h.org + "/" + r2, h'.org + "/" + r2';
      CancelPrefix(tmp + "/", r1, r1');
      PrefixUnique(h.org, r2, h'.org, r2', '/');
      PrefixUnique(h.sys, r3, h'.sys, r3', '/');
      PrefixUnique(h.name, f, h'.name, f', '/');
    }
  }

  lemma CancelPrefix(p: string, a: string, b: string)
    requires p + a == p + b
    ensures a == b
  {
    assert (p + a)[|p|..] == a && (p + b)[|p|..] == b;
  }

  // ---------- items and state ----------

  /** One fetched configuration; None for a missing key. `written` is the text that filebeat() or
      collector() leaves in the configuration file, None when they fail before opening it. */
  datatype Item = Item(
    orgId: Option<string>,
    sysId: Option<string>,
    hostname: Option<string>,
    fullPath: Option<string>,
    configVersion: Option<int>,
    platform: Option<string>,
    serviceName: Option<string>,
    written: Option<string>)

  datatype State = State(
    versions: map<string, int>,
    platforms: map<string, string>,
    dirs: set<string>,
    files: map<string, string>)

  function HostOf(item: Item): Option<Host> {
    if item.orgId.Some? && item.sysId.Some? && item.hostname.Some?
    then Some(Host(item.orgId.value, item.sysId.value, item.hostname.value))
    else None
  }

  function CopyLine(fullPath: string): string {
    BaseName(fullPath) + ": " + fullPath + "\n"
  }

  // ---------- one item ----------

  function AppendConf(s: State, dir: string, fullPath: string): State {
    var path := PathJoin(dir, INSTALL_CONF);
    var text := if path in s.files then s.files[path] else HEADER;
    s.(dirs := s.dirs + {dir}, files := s.files[path := text + CopyLine(fullPath)])
  }

  function NoteVersion(versions: map<string, int>, key: string, version: int): map<string, int> {
    if key in versions && versions[key] >= version then versions else versions[key := version]
  }

  function NotePlatform(platforms: map<string, string>, key: string, platform: string): map<string, string> {
    if key in platforms then platforms else platforms[key := platform]
  }

  predicate KnownService(service: string) {
    service == "filebeat" || service == "collector"
  }

  /** filebeat() or collector() opens the configuration file. */
  predicate Written(item: Item) {
    item.serviceName.Some? && KnownService(item.serviceName.value) && item.written.Some?
  }

  /** The write of the configuration file itself. */
  function WriteConfig(files: map<string, string>, dir: string, item: Item): map<string, string>
    requires item.fullPath.Some?
  {
    var name := BaseName(item.fullPath.value);
    if Written(item) && SingleName(name)
    then files[PathJoin(dir, name) := item.written.value]
    else files
  }

  /** The body of the loop in fetcher: a KeyError ends it where it occurs. */
  function Process(tmp: string, s: State, item: Item): State {
    match HostOf(item)
    case None => s
    case Some(h) =>
      var dir := HostDir(tmp, h);
      if item.fullPath.None? then s.(dirs := s.dirs + {dir})
      else
        var s1 := AppendConf(s, dir, item.fullPath.value);
        if item.configVersion.None? then s1
        else
          var s2 := s1.(versions := NoteVersion(s1.versions, KeyOf(h), item.configVersion.value));
          if item.platform.None? then s2
          else s2.(platforms := NotePlatform(s2.platforms, KeyOf(h), item.platform.value),
                   files := WriteConfig(s2.files, dir, item))
  }

  function ProcessAll(tmp: string, s: State, items: seq<Item>): State {
    if items == [] then s
    else Process(tmp, ProcessAll(tmp, s, items[..|items| - 1]), items[|items| - 1])
  }

  /** One fetcher call on the items the alert daemon returned. */
  function Fetch(tmp: string, s: State, items: seq<Item>): State {
    ProcessAll(tmp, s.(dirs := {tmp}, files := map[]), items)
  }

  /** The fetcher calls since the module was loaded. */
  function FetchAll(tmp: string, fetches: seq<seq<Item>>): State {
    if fetches == [] then State(map[], map[], {}, map[])
    else Fetch(tmp, FetchAll(tmp, fetches[..|fetches| - 1]), fetches[|fetches| - 1])
  }

  function AllItems(fetches: seq<seq<Item>>): seq<Item> {
    if fetches == [] then [] else AllItems(fetches[..|fetches| - 1]) + fetches[|fetches| - 1]
  }

  // ---------- what the maps stand for ----------

  /** The item reaches the version bookkeeping of this host. */
  predicate Counts(item: Item, h: Host) {
    HostOf(item) == Some(h) && item.fullPath.Some? && item.configVersion.Some?
  }

  function VersionsOf(items: seq<Item>, h: Host): seq<int> {
    if items == [] then []
    else
      var last := items[|items| - 1];
      VersionsOf(items[..|items| - 1], h) + if Counts(last, h) then [last.configVersion.value] else []
  }

  function PlatformsOf(items: seq<Item>, h: Host): seq<string> {
    if items == [] then []
    else
      var last := items[|items| - 1];
      PlatformsOf(items[..|items| - 1], h) +
        if Counts(last, h) && last.platform.Some? then [last.platform.value] else []
  }

  /** The item is counted under this key, for whatever host. */
  predicate CountsUnder(item: Item, key: string) {
    HostOf(item).Some? && KeyOf(HostOf(item).value) == key && Counts(item, HostOf(item).value)
  }

  function VersionsUnder(items: seq<Item>, key: string): seq<int> {
    if items == [] then []
    else
      var last := items[|items| - 1];
      VersionsUnder(items[..|items| - 1], key) + if CountsUnder(last, key) then [last.configVersion.value] else []
  }

  function PlatformsUnder(items: seq<Item>, key: string): seq<string> {
    if items == [] then []
    else
      var last := items[|items| - 1];
      PlatformsUnder(items[..|items| - 1], key) +
        if CountsUnder(last, key) && last.platform.Some? then [last.platform.value] else []
  }

  ghost predicate IsMaximum(m: int, xs: seq<int>) {
    m in xs && forall x :: x in xs ==> x <= m
  }

  ghost predicate MaxVersion(versions: map<string, int>, vs: seq<int>, key: string) {
    if vs == [] then key !in versions else key in versions && IsMaximum(versions[key], vs)
  }

  ghost predicate FirstPlatform(platforms: map<string, string>, ps: seq<string>, key: string) {
    if ps == [] then key !in platforms else key in platforms && platforms[key] == ps[0]
  }

  /** The entries of one key: the maximum of its versions and the first of its platforms. */
  ghost predicate FoldedUnder(s: State, items: seq<Item>, key: string) {
    MaxVersion(s.versions, VersionsUnder(items, key), key)
        && FirstPlatform(s.platforms, PlatformsUnder(items, key), key)
  }

  /** The entries of one host. */
  ghost predicate Folded(s: State, items: seq<Item>, h: Host) {
    MaxVersion(s.versions, VersionsOf(items, h), KeyOf(h))
        && FirstPlatform(s.platforms, PlatformsOf(items, h), KeyOf(h))
  }

  lemma NoteVersionMax(versions: map<string, int>, vs: seq<int>, key: string, version: int)
    requires MaxVersion(versions, vs, key)
    ensures MaxVersion(NoteVersion(versions, key, version), vs + [version], key)
  {
    var all := vs + [version];
    assert forall x :: x in all <==> x in vs || x == version;
  }

  lemma UnderSnoc(items: seq<Item>, item: Item, key: string)
    ensures VersionsUnder(items + [item], key)
         == VersionsUnder(items, key) + if CountsUnder(item, key) then [item.configVersion.value] else []
    ensures PlatformsUnder(items + [item], key)
         == PlatformsUnder(items, key) +
            if CountsUnder(item, key) && item.platform.Some? then [item.platform.value] else []
  {
    assert (items + [item])[..|items|] == items;
  }

  /** What the loop body does to the two maps. */
  lemma ProcessNotes(tmp: string, s: State, item: Item)
    ensures var r := Process(tmp, s, item);
            match HostOf(item)
            case None => r.versions == s.versions && r.platforms == s.platforms
            case Some(h) =>
              && r.versions == (if Counts(item, h) then NoteVersion(s.versions, KeyOf(h), item.configVersion.value)
                                else s.versions)
              && r.platforms == (if Counts(item, h) && item.platform.Some?
                                 then NotePlatform(s.platforms, KeyOf(h), item.platform.value) else s.platforms)
  {
  }

  lemma FoldStep(tmp: string, s: State, items: seq<Item>, item: Item, key: string)
    requires FoldedUnder(s, items, key)
    ensures FoldedUnder(Process(tmp, s, item), items + [item], key)
  {
    UnderSnoc(items, item, key);
    ProcessNotes(tmp, s, item);
    if HostOf(item).Some? {
      NoteStep(s.versions, VersionsUnder(items, key), key, s.platforms, PlatformsUnder(items, key),
               KeyOf(HostOf(item).value), item);
    }
  }

  lemma NoteStep(versions: map<string, int>, vs: seq<int>, key: string, platforms: map<string, string>,
                 ps: seq<string>, other: string, item: Item)
    requires MaxVersion(versions, vs, key) && FirstPlatform(platforms, ps, key)
    ensures item.configVersion.Some? ==>
              MaxVersion(NoteVersion(versions, other, item.configVersion.value),
                         vs + if other == key then [item.configVersion.value] else [], key)
    ensures item.platform.Some? ==>
              FirstPlatform(NotePlatform(platforms, other, item.platform.value),
                            ps + if other == key then [item.platform.value] else [], key)
  {
    if other == key && item.configVersion.Some? {
      NoteVersionMax(versions, vs, key, item.configVersion.value);
    }
    assert vs + [] == vs && ps + [] == ps;
  }

  lemma {:induction false} FoldItems(tmp: string, s: State, before: seq<Item>, items: seq<Item>, key: string)
    requires FoldedUnder(s, before, key)
    ensures FoldedUnder(ProcessAll(tmp, s, items), before + items, key)
    decreases |items|
  {
    if items == [] {
      assert before + items == before;
    } else {
      var init, last := items[..|items| - 1], items[|items| - 1];
      FoldItems(tmp, s, before, init, key);
      FoldStep(tmp, ProcessAll(tmp, s, init), before + init, last, key);
      assert before + items == (before + init) + [last];
    }
  }

  /** Across any fetcher calls since the module was loaded, VERSIONS holds the numeric maximum and
      PLATFORMS the first platform of the items counted under a key. */
  lemma {:induction false} KeysFold(tmp: string, fetches: seq<seq<Item>>, key: string)
    ensures FoldedUnder(FetchAll(tmp, fetches), AllItems(fetches), key)
  {
    if fetches != [] {
      var init, last := fetches[..|fetches| - 1], fetches[|fetches| - 1];
      KeysFold(tmp, init, key);
      var s := FetchAll(tmp, init).(dirs := {tmp}, files := map[]);
      assert FoldedUnder(s, AllItems(init), key);
      FoldItems(tmp, s, AllItems(init), last, key);
    }
  }

  /** The entries that one item leaves, under the texts of its host. */
  lemma OneEntry(tmp: string, item: Item, org: string, sys: string, name: string)
    requires item.orgId == Some(org) && item.sysId == Some(sys) && item.hostname == Some(name)
    requires item.fullPath.Some? && item.configVersion.Some? && item.platform.Some?
    ensures var s, key := FetchAll(tmp, [[item]]), org + "_" + sys + "_" + name;
            s.versions == map[key := item.configVersion.value] && s.platforms == map[key := item.platform.value]
  {
    var s := State(map[], map[], {tmp}, map[]);
    assert [[item]][..0] == [] && [item][..0] == [];
    assert FetchAll(tmp, []) == s.(dirs := {});
    assert ProcessAll(tmp, s, []) == s;
    hide Process;
    assert ProcessAll(tmp, s, [item]) == Process(tmp, s, item);
    ProcessNotes(tmp, s, item);
  }

  /** Every item counted under the key of the host is one of its own. */
  ghost predicate OwnItems(items: seq<Item>, h: Host) {
    forall i :: i in items && CountsUnder(i, KeyOf(h)) ==> HostOf(i) == Some(h)
  }

  /** So it is whatever the items are when the host has no underscore. */
  lemma NoUnderscoreOwns(items: seq<Item>, h: Host)
    requires NoUnderscore(h)
    ensures OwnItems(items, h)
  {
    KeyIsOwnIff(h);
  }

  lemma {:induction false} OwnIsUnder(items: seq<Item>, h: Host)
    requires OwnItems(items, h)
    ensures VersionsUnder(items, KeyOf(h)) == VersionsOf(items, h)
    ensures PlatformsUnder(items, KeyOf(h)) == PlatformsOf(items, h)
  {
    if items != [] {
      var init, last := items[..|items| - 1], items[|items| - 1];
      assert last in items && forall i :: i in init ==> i in items;
      OwnIsUnder(init, h);
      assert CountsUnder(last, KeyOf(h)) <==> Counts(last, h);
    }
  }

  /** The entries of a host are the maximum and the first of its own items, when no other host's
      item was counted under its key. */
  lemma {:induction false} FetchesFold(tmp: string, fetches: seq<seq<Item>>, h: Host)
    requires OwnItems(AllItems(fetches), h)
    ensures Folded(FetchAll(tmp, fetches), AllItems(fetches), h)
  {
    KeysFold(tmp, fetches, KeyOf(h));
    OwnIsUnder(AllItems(fetches), h);
  }

  lemma {:induction false} OwnAmongUnder(items: seq<Item>, h: Host)
    ensures forall v :: v in VersionsOf(items, h) ==> v in VersionsUnder(items, KeyOf(h))
  {
    if items != [] {
      OwnAmongUnder(items[..|items| - 1], h);
    }
  }

  /** One of a host's own versions is not exceeded by any version counted under its key. */
  ghost predicate OwnTops(own: seq<int>, under: seq<int>) {
    exists m :: m in own && NotExceeded(m, under)
  }

  ghost predicate NotExceeded(m: int, under: seq<int>) {
    forall v :: v in under ==> v <= m
  }

  /** The version kept for a host is the maximum of its own versions exactly when none of those
      counted under the key lies above all of them. */
  lemma {:induction false} HostMaximumIff(tmp: string, fetches: seq<seq<Item>>, h: Host)
    requires VersionsOf(AllItems(fetches), h) != []
    ensures var items, s := AllItems(fetches), FetchAll(tmp, fetches);
            && KeyOf(h) in s.versions
            && (IsMaximum(s.versions[KeyOf(h)], VersionsOf(items, h)) <==>
                OwnTops(VersionsOf(items, h), VersionsUnder(items, KeyOf(h))))
  {
    var items, s := AllItems(fetches), FetchAll(tmp, fetches);
    var own, under := VersionsOf(items, h), VersionsUnder(items, KeyOf(h));
    KeysFold(tmp, fetches, KeyOf(h));
    OwnAmongUnder(items, h);
    var first := own[0];
    assert first in own;
    assert first in under;
    TopsIff(s.versions[KeyOf(h)], own, under);
  }

  lemma TopsIff(top: int, own: seq<int>, under: seq<int>)
    requires IsMaximum(top, under) && forall v :: v in own ==> v in under
    ensures IsMaximum(top, own) <==> OwnTops(own, under)
  {
    if IsMaximum(top, own) {
      assert NotExceeded(top, under);
    }
  }

  function Versioned(h: Host, version: int): Item {
    Item(Some(h.org), Some(h.sys), Some(h.name), Some("/f"), Some(version), None, None, None)
  }

  /** Two hosts of one key: after one fetch with version 9 of the first and 3 of the second, 9 is
      kept for the second. */
  lemma {:induction false} WrongVersionKept(tmp: string)
    ensures var h, h' := Host("a_b", "c", "d"), Host("a", "b_c", "d");
            var items := [Versioned(h, 9), Versioned(h', 3)];
            && KeyOf(h') in Fetch(tmp, FetchAll(tmp, []), items).versions
            && Fetch(tmp, FetchAll(tmp, []), items).versions[KeyOf(h')] == 9
            && VersionsOf(items, h') == [3]
  {
    var h, h' := Host("a_b", "c", "d"), Host("a", "b_c", "d");
    var a, b := Versioned(h, 9), Versioned(h', 3);
    assert KeyOf(h) == KeyOf(h') == "a_b_c_d";
    TwoItems(tmp, FetchAll(tmp, []), a, b);
    ProcessNotes(tmp, FetchAll(tmp, []).(dirs := {tmp}), a);
    ProcessNotes(tmp, Process(tmp, FetchAll(tmp, []).(dirs := {tmp}), a), b);
    OwnOfTwo(a, b, h');
  }

  lemma OwnOfTwo(a: Item, b: Item, h: Host)
    requires Counts(b, h) && !Counts(a, h)
    ensures VersionsOf([a, b], h) == [b.configVersion.value]
  {
    assert [a, b][..1] == [a];
    assert VersionsOf([a], h) == [];
  }

  lemma TwoItems(tmp: string, s: State, a: Item, b: Item)
    ensures Fetch(tmp, s, [a, b]) == Process(tmp, Process(tmp, s.(dirs := {tmp}, files := map[]), a), b)
  {
    var s0 := s.(dirs := {tmp}, files := map[]);
    assert [a, b][..1] == [a] && [a][..0] == [];
    assert ProcessAll(tmp, s0, [a]) == Process(tmp, s0, a);
  }

  // ---------- install.conf ----------

  /** install_conf writes a line for the item. */
  predicate HasLine(item: Item, h: Host) {
    HostOf(item) == Some(h) && item.fullPath.Some?
  }

  /** The lines of one host, in fetch order. */
  function LinesOf(items: seq<Item>, h: Host): seq<string> {
    if items == [] then []
    else
      var last := items[|items| - 1];
      LinesOf(items[..|items| - 1], h) + if HasLine(last, h) then [CopyLine(last.fullPath.value)] else []
  }

  /** The configuration file of the item is itself named install.conf. */
  predicate NamedInstallConf(item: Item) {
    item.fullPath.Some? && BaseName(item.fullPath.value) == INSTALL_CONF
  }

  ghost predicate CleanPaths(items: seq<Item>) {
    forall i :: i in items && HostOf(i).Some? ==> SingleNames(HostOf(i).value)
  }

  function ConfPath(tmp: string, h: Host): string {
    PathJoin(HostDir(tmp, h), INSTALL_CONF)
  }

  function ConfText(items: seq<Item>, h: Host): Option<string> {
    if LinesOf(items, h) == [] then None else Some(HEADER + Concat(LinesOf(items, h)))
  }

  function Content(files: map<string, string>, path: string): Option<string> {
    if path in files then Some(files[path]) else None
  }

  lemma LinesSnoc(items: seq<Item>, item: Item, h: Host)
    ensures LinesOf(items + [item], h)
         == LinesOf(items, h) + if HasLine(item, h) then [CopyLine(item.fullPath.value)] else []
  {
    assert (items + [item])[..|items|] == items;
  }

  lemma {:induction false} LinesAppend(a: seq<Item>, b: seq<Item>, h: Host)
    ensures LinesOf(a + b, h) == LinesOf(a, h) + LinesOf(b, h)
    decreases |b|
  {
    if b == [] {
      assert a + b == a;
    } else {
      var init, last := b[..|b| - 1], b[|b| - 1];
      assert a + b == (a + init) + [last] && b == init + [last];
      LinesSnoc(a + init, last, h);
      LinesAppend(a, init, h);
      LinesSnoc(init, last, h);
    }
  }

  lemma TextAppend(text: string, a: seq<string>, b: seq<string>)
    ensures text + Concat(a + b) == text + Concat(a) + Concat(b)
  {
    ConcatAppend(a, b);
    assert text + (Concat(a) + Concat(b)) == text + Concat(a) + Concat(b);
  }

  lemma TextSnoc(text: string, lines: seq<string>, line: string)
    ensures text + Concat(lines + [line]) == text + Concat(lines) + line
  {
    TextAppend(text, lines, [line]);
    assert Concat([line]) == line;
  }

  /** The item's configuration file replaces the install.conf of the host. */
  predicate Overwrites(item: Item, h: Host) {
    Counts(item, h) && item.platform.Some? && Written(item) && NamedInstallConf(item)
  }

  /** What one item does to the install.conf of a host. */
  function NextConf(conf: Option<string>, item: Item, h: Host): Option<string> {
    if Overwrites(item, h) then item.written
    else if HasLine(item, h) then Some((if conf.Some? then conf.value else HEADER) + CopyLine(item.fullPath.value))
    else conf
  }

  lemma AppendStep(tmp: string, s: State, fullPath: string, h: Host, h': Host)
    requires GoodTmp(tmp) && SingleNames(h) && SingleNames(h')
    ensures var c := Content(s.files, ConfPath(tmp, h));
            var r := Content(AppendConf(s, HostDir(tmp, h'), fullPath).files, ConfPath(tmp, h));
            r == if h' == h then Some((if c.Some? then c.value else HEADER) + CopyLine(fullPath)) else c
  {
    FilePathInjective(tmp, h, INSTALL_CONF, h', INSTALL_CONF);
  }

  /** The configuration file is the install.conf of a host only if it is one of its own, so named. */
  lemma WriteStep(tmp: string, files: map<string, string>, item: Item, h: Host, h': Host)
    requires GoodTmp(tmp) && SingleNames(h) && SingleNames(h') && item.fullPath.Some?
    ensures Content(WriteConfig(files, HostDir(tmp, h'), item), ConfPath(tmp, h))
         == if h' == h && Written(item) && NamedInstallConf(item) then item.written
            else Content(files, ConfPath(tmp, h))
  {
    var name := BaseName(item.fullPath.value);
    assert SingleName(INSTALL_CONF);
    if SingleName(name) {
      FilePathInjective(tmp, h, INSTALL_CONF, h', name);
    }
  }

  lemma ConfStep(tmp: string, s: State, item: Item, h: Host)
    requires GoodTmp(tmp) && SingleNames(h) && (HostOf(item).Some? ==> SingleNames(HostOf(item).value))
    ensures Content(Process(tmp, s, item).files, ConfPath(tmp, h))
         == NextConf(Content(s.files, ConfPath(tmp, h)), item, h)
  {
    if HostOf(item).Some? && item.fullPath.Some? {
      var h' := HostOf(item).value;
      AppendStep(tmp, s, item.fullPath.value, h, h');
      WriteStep(tmp, AppendConf(s, HostDir(tmp, h'), item.fullPath.value).files, item, h, h');
    }
  }

  /** The last item that replaces the list. */
  function LastOverwrite(items: seq<Item>, h: Host): (r: Option<nat>)
    ensures r.None? ==> forall j :: 0 <= j < |items| ==> !Overwrites(items[j], h)
    ensures r.Some? ==> r.value < |items| && Overwrites(items[r.value], h)
                        && forall j :: r.value < j < |items| ==> !Overwrites(items[j], h)
  {
    if items == [] then None
    else if Overwrites(items[|items| - 1], h) then Some(|items| - 1)
    else LastOverwrite(items[..|items| - 1], h)
  }

  /** The list, or what replaced it followed by the lines of the later items. */
  function FinalConf(items: seq<Item>, h: Host): Option<string> {
    match LastOverwrite(items, h)
    case None => ConfText(items, h)
    case Some(k) => Some(items[k].written.value + Concat(LinesOf(items[k + 1..], h)))
  }

  lemma FinalSnoc(items: seq<Item>, item: Item, h: Host)
    ensures FinalConf(items + [item], h) == NextConf(FinalConf(items, h), item, h)
  {
    var all := items + [item];
    assert all[..|all| - 1] == items;
    if Overwrites(item, h) {
      assert all[|items| + 1..] == [];
      assert item.written.value + Concat(LinesOf([], h)) == item.written.value;
    } else if LastOverwrite(items, h).Some? {
      assert LastOverwrite(all, h) == LastOverwrite(items, h);
      FinalLater(items, item, h, LastOverwrite(items, h).value);
    } else {
      assert LastOverwrite(all, h) == None;
      LinesSnoc(items, item, h);
      if HasLine(item, h) {
        TextSnoc(HEADER, LinesOf(items, h), CopyLine(item.fullPath.value));
        assert HEADER + Concat([]) == HEADER;
      } else {
        assert LinesOf(items, h) + [] == LinesOf(items, h);
      }
    }
  }

  /** After a replacement, one more item puts its line, if it has one, at the end. */
  lemma FinalLater(items: seq<Item>, item: Item, h: Host, k: nat)
    requires LastOverwrite(items, h) == LastOverwrite(items + [item], h) == Some(k) && !Overwrites(item, h)
    ensures FinalConf(items + [item], h) == NextConf(FinalConf(items, h), item, h)
  {
    hide LinesOf, CopyLine, Concat, ConfText, NamedInstallConf;
    var rest := items[k + 1..];
    assert (items + [item])[k + 1..] == rest + [item];
    LinesSnoc(rest, item, h);
    if HasLine(item, h) {
      TextSnoc(items[k].written.value, LinesOf(rest, h), CopyLine(item.fullPath.value));
    } else {
      assert LinesOf(rest, h) + [] == LinesOf(rest, h);
    }
  }

  lemma FinalEmpty(h: Host)
    ensures FinalConf([], h) == None
  {
  }

  lemma {:induction false} ConfItems(tmp: string, s: State, items: seq<Item>, h: Host)
    requires GoodTmp(tmp) && SingleNames(h) && CleanPaths(items) && s.files == map[]
    ensures Content(ProcessAll(tmp, s, items).files, ConfPath(tmp, h)) == FinalConf(items, h)
    decreases |items|
  {
    hide Process, NextConf, HostDir, FinalConf;
    if items == [] {
      FinalEmpty(h);
    } else {
      var init, last := items[..|items| - 1], items[|items| - 1];
      assert last in items && forall i :: i in init ==> i in items;
      ConfItems(tmp, s, init, h);
      ConfStep(tmp, ProcessAll(tmp, s, init), last, h);
      FinalSnoc(init, last, h);
      assert items == init + [last];
    }
  }

  /** The install.conf of a host after a fetcher call, from any earlier state: the header and one
      line per item of the host with a fullPath, in fetch order; or, after an item whose own file is
      a written install.conf, that file and the lines of the later items. */
  lemma InstallConfExact(tmp: string, s: State, items: seq<Item>, h: Host)
    requires GoodTmp(tmp) && SingleNames(h) && CleanPaths(items)
    ensures Content(Fetch(tmp, s, items).files, ConfPath(tmp, h)) == FinalConf(items, h)
  {
    ConfItems(tmp, s.(dirs := {tmp}, files := map[]), items, h);
  }

  lemma CancelSuffix(a: string, b: string, c: string)
    ensures a + c == b + c <==> a == b
  {
    if a + c == b + c {
      assert (a + c)[..|a|] == a && (b + c)[..|b|] == b;
    }
  }

  /** No item replaced the list, or the last replacement was, text for text, the list up to its own
      line. */
  ghost predicate ListKept(items: seq<Item>, h: Host) {
    match LastOverwrite(items, h)
    case None => true
    case Some(k) => items[k].written == Some(HEADER + Concat(LinesOf(items[..k + 1], h)))
  }

  /** The complete list is there exactly then. */
  lemma {:induction false} InstallConfCompleteIff(tmp: string, s: State, items: seq<Item>, h: Host)
    requires GoodTmp(tmp) && SingleNames(h) && CleanPaths(items)
    ensures Content(Fetch(tmp, s, items).files, ConfPath(tmp, h)) == ConfText(items, h) <==> ListKept(items, h)
  {
    InstallConfExact(tmp, s, items, h);
    FinalIsComplete(items, h);
  }

  lemma FinalIsComplete(items: seq<Item>, h: Host)
    ensures FinalConf(items, h) == ConfText(items, h) <==> ListKept(items, h)
  {
    if LastOverwrite(items, h).Some? {
      KeptAfter(items, h, LastOverwrite(items, h).value);
    }
  }

  lemma KeptAfter(items: seq<Item>, h: Host, k: nat)
    requires LastOverwrite(items, h) == Some(k)
    ensures FinalConf(items, h) == ConfText(items, h)
       <==> items[k].written == Some(HEADER + Concat(LinesOf(items[..k + 1], h)))
  {
    ConfSplit(items, h, k);
    CancelSuffix(items[k].written.value, HEADER + Concat(LinesOf(items[..k + 1], h)),
                 Concat(LinesOf(items[k + 1..], h)));
  }

  /** The complete list, cut after an item that has a line. */
  lemma ConfSplit(items: seq<Item>, h: Host, k: nat)
    requires k < |items| && HasLine(items[k], h)
    ensures ConfText(items, h)
         == Some(HEADER + Concat(LinesOf(items[..k + 1], h)) + Concat(LinesOf(items[k + 1..], h)))
  {
    var a, b := items[..k + 1], items[k + 1..];
    assert items == a + b && a == items[..k] + [items[k]];
    LinesAppend(a, b, h);
    LinesSnoc(items[..k], items[k], h);
    TextAppend(HEADER, LinesOf(a, h), LinesOf(b, h));
  }

  function FileOf(h: Host, fullPath: string): Item {
    Item(Some(h.org), Some(h.sys), Some(h.name), Some(fullPath), Some(1), Some("p"), Some("filebeat"), Some("text"))
  }

  /** A file named install.conf between two others: the line of the first is gone. */
  lemma {:induction false} LinesLost(tmp: string, s: State, h: Host, first: string, dir: string, later: string)
    requires GoodTmp(tmp) && SingleNames(h) && BaseName(later) != INSTALL_CONF
    ensures var items := [FileOf(h, first), FileOf(h, dir + "/" + INSTALL_CONF), FileOf(h, later)];
            Content(Fetch(tmp, s, items).files, ConfPath(tmp, h)) == Some("text" + CopyLine(later))
  {
    var a, i, b := FileOf(h, first), FileOf(h, dir + "/" + INSTALL_CONF), FileOf(h, later);
    BaseNameTail(dir, INSTALL_CONF);
    BaseNamePlain(INSTALL_CONF);
    LostLine(tmp, s, a, i, b, h);
  }

  lemma LostLine(tmp: string, s: State, a: Item, i: Item, b: Item, h: Host)
    requires GoodTmp(tmp) && SingleNames(h) && HostOf(a) == HostOf(i) == HostOf(b) == Some(h)
    requires Overwrites(i, h) && HasLine(b, h) && !Overwrites(b, h)
    ensures Content(Fetch(tmp, s, [a, i, b]).files, ConfPath(tmp, h))
         == Some(i.written.value + CopyLine(b.fullPath.value))
  {
    InstallConfExact(tmp, s, [a, i, b], h);
    ReplacedThenLine(a, i, b, h);
  }

  lemma ReplacedThenLine(a: Item, i: Item, b: Item, h: Host)
    requires Overwrites(i, h) && HasLine(b, h) && !Overwrites(b, h)
    ensures FinalConf([a, i, b], h) == Some(i.written.value + CopyLine(b.fullPath.value))
  {
    var items := [a, i, b];
    assert items[..2] == [a, i];
    assert items[2..] == [] + [b];
    assert LastOverwrite([a, i], h) == Some(1);
    LinesSnoc([], b, h);
    TextSnoc(i.written.value, [], CopyLine(b.fullPath.value));
    assert i.written.value + Concat([]) == i.written.value;
  }

  /** One changed file: its list names the file in the package and the place it goes to, under the
      directory of the host. */
  lemma {:induction false} OneLine(tmp: string, s: State, h: Host, item: Item, dir: string, f: string)
    requires GoodTmp(tmp) && SingleNames(h) && SingleName(f) && f != "install.conf"
    requires item.orgId == Some(h.org) && item.sysId == Some(h.sys) && item.hostname == Some(h.name)
    requires item.fullPath == Some(dir + "/" + f)
    ensures Content(Fetch(tmp, s, [item]).files, tmp + "/" + h.org + "/" + h.sys + "/" + h.name + "/" + "install.conf")
         == Some("[copy]\n" + (f + ": " + (dir + "/" + f) + "\n"))
  {
    hide Fetch, FinalConf, PathJoin, HostDir;
    BaseNameTail(dir, f);
    BaseNamePlain(f);
    OneText(h, item);
    hide BaseName;
    PathWritten(tmp, h, "install.conf");
    InstallConfExact(tmp, s, [item], h);
  }

  lemma OneText(h: Host, item: Item)
    requires HasLine(item, h) && !Overwrites(item, h)
    ensures FinalConf([item], h) == Some("[copy]\n" + CopyLine(item.fullPath.value))
  {
    FinalEmpty(h);
    FinalSnoc([], item, h);
    assert [] + [item] == [item];
  }

  /** The path of a file of a host, in one text. */
  lemma PathWritten(tmp: string, h: Host, f: string)
    requires GoodTmp(tmp) && SingleNames(h) && SingleName(f)
    ensures PathJoin(HostDir(tmp, h), f) == tmp + "/" + h.org + "/" + h.sys + "/" + h.name + "/" + f
  {
    FilePathText(tmp, h, f);
    var r := h.name + "/" + f;
    assert tmp + "/" + (h.org + "/" + (h.sys + "/" + r)) == tmp + "/" + h.org + "/" + h.sys + "/" + r;
  }

  // ---------- reading the list back ----------

  /** A line is cut at its first ": ". */
  function CutLine(line: string): seq<(string, string)> {
    match Find(line, ": ")
    case None => []
    case Some(i) => [(line[..i], line[i + 2..])]
  }

  function CutLines(lines: seq<string>): seq<(string, string)> {
    if lines == [] then [] else CutLine(lines[0]) + CutLines(lines[1..])
  }

  /** The [copy] section: which file of the package goes where. */
  function ReadList(text: string): seq<(string, string)> {
    var lines := SplitOn(text, "\n");
    if lines[0] == "[copy]" then CutLines(lines[1..]) else []
  }

  /** The paths of the items of a host, in fetch order. */
  function PathsOf(items: seq<Item>, h: Host): seq<string> {
    if items == [] then []
    else
      var last := items[|items| - 1];
      PathsOf(items[..|items| - 1], h) + if HasLine(last, h) then [last.fullPath.value] else []
  }

  /** What the list is to say. */
  function Copies(paths: seq<string>): seq<(string, string)> {
    if paths == [] then [] else [(BaseName(paths[0]), paths[0])] + Copies(paths[1..])
  }

  function LineTexts(paths: seq<string>): seq<string> {
    if paths == [] then [] else [BaseName(paths[0]) + ": " + paths[0]] + LineTexts(paths[1..])
  }

  /** A line reads back exactly when the file name has no ": ". */
  lemma {:induction false} CutLineIff(path: string)
    ensures var read := CutLine(BaseName(path) + ": " + path);
            |read| == 1 && (read[0] == (BaseName(path), path) <==> Free(BaseName(path), ": "))
  {
    var name := BaseName(path);
    var line := name + ": " + path;
    assert line[|name|..|name| + 2] == ": ";
    assert At(line, |name|, ": ");
    assert line[..|name|] == name && line[|name| + 2..] == path;
    if Free(name, ": ") {
      FindAfterFree(name, ": ", path);
    } else {
      var q: nat :| At(name, q, ": ");
      assert name[q..q + 2] == line[q..q + 2];
      assert At(line, q, ": ");
    }
  }

  /** No file name among the paths has the text that ends a name in the list. */
  ghost predicate NamesFree(paths: seq<string>) {
    forall p :: p in paths ==> Free(BaseName(p), ": ")
  }

  lemma {:induction false} CutLinesIff(paths: seq<string>)
    ensures CutLines(LineTexts(paths)) == Copies(paths) <==> NamesFree(paths)
    ensures |CutLines(LineTexts(paths))| == |Copies(paths)| == |paths|
  {
    if paths != [] {
      var first, more := [BaseName(paths[0]) + ": " + paths[0]], LineTexts(paths[1..]);
      CutLineIff(paths[0]);
      CutLinesIff(paths[1..]);
      assert (first + more)[1..] == more;
      HeadAndTail(CutLine(first[0]), CutLines(more), [(BaseName(paths[0]), paths[0])], Copies(paths[1..]));
      assert forall p :: p in paths <==> p == paths[0] || p in paths[1..];
    }
  }

  lemma HeadAndTail<T>(a: seq<T>, b: seq<T>, c: seq<T>, d: seq<T>)
    requires |a| == |c|
    ensures a + b == c + d <==> a == c && b == d
  {
    if a + b == c + d {
      assert a == (a + b)[..|a|] && b == (a + b)[|a|..] && c == (c + d)[..|c|] && d == (c + d)[|c|..];
    }
  }

  lemma {:induction false} TextsSnoc(paths: seq<string>, path: string)
    ensures LineTexts(paths + [path]) == LineTexts(paths) + [BaseName(path) + ": " + path]
  {
    if paths == [] {
      assert [path][1..] == [] && [] + [path] == [path];
    } else {
      assert (paths + [path])[1..] == paths[1..] + [path];
      TextsSnoc(paths[1..], path);
    }
  }

  lemma JoinMore(parts: seq<string>, text: string, sep: string)
    ensures Join(parts + [text] + [""], sep) == Join(parts + [""], sep) + (text + sep)
  {
    assert Join([text] + [""], sep) == text + sep + "";
    if parts == [] {
      assert [] + [text] == [text];
    } else {
      JoinAppend(parts, [text] + [""], sep);
      JoinAppend(parts, [""], sep);
      assert parts + [text] + [""] == parts + ([text] + [""]);
      assert Join(parts, sep) + sep + (text + sep) == Join(parts, sep) + sep + "" + (text + sep);
    }
  }

  /** The text of the list, as lines. */
  lemma {:induction false} TextIsLines(items: seq<Item>, h: Host)
    ensures HEADER + Concat(LinesOf(items, h)) == Join(["[copy]"] + LineTexts(PathsOf(items, h)) + [""], "\n")
  {
    if items == [] {
      assert ["[copy]"] + [] + [""] == ["[copy]", ""] && ["[copy]", ""][1..] == [""];
    } else {
      var init, last := items[..|items| - 1], items[|items| - 1];
      TextIsLines(init, h);
      if HasLine(last, h) {
        var texts, path := LineTexts(PathsOf(init, h)), last.fullPath.value;
        TextSnoc(HEADER, LinesOf(init, h), CopyLine(path));
        TextsSnoc(PathsOf(init, h), path);
        var line := BaseName(path) + ": " + path;
        JoinMore(["[copy]"] + texts, line, "\n");
        assert ["[copy]"] + (texts + [line]) == ["[copy]"] + texts + [line];
      } else {
        assert LinesOf(init, h) + [] == LinesOf(init, h) && PathsOf(init, h) + [] == PathsOf(init, h);
      }
    }
  }

  /** No path has a line break. */
  predicate OneLiners(paths: seq<string>) {
    forall p :: p in paths ==> '\n' !in p
  }

  lemma {:induction false} TextsFree(paths: seq<string>)
    requires OneLiners(paths)
    ensures forall t :: t in LineTexts(paths) ==> Free(t, "\n")
  {
    if paths != [] {
      var p := paths[0];
      assert p in paths && forall q :: q in paths[1..] ==> q in paths;
      TextsFree(paths[1..]);
      NameIn(p, '\n');
      FreeOfChar(BaseName(p) + ": " + p, '\n');
    }
  }

  lemma NameIn(path: string, c: char)
    requires c !in path
    ensures c !in BaseName(path)
  {
    PiecesWithin(path, "/", c);
  }

  lemma {:induction false} PiecesWithin(s: string, sep: string, c: char)
    requires sep != "" && c !in s
    ensures forall p :: p in SplitOn(s, sep) ==> c !in p
    decreases |s|
  {
    match Find(s, sep)
    case None =>
      assert SplitOn(s, sep) == [s];
    case Some(i) =>
      var first, rest := s[..i], s[i + |sep|..];
      PartWithout(s, i, i + |sep|, c);
      PiecesWithin(rest, sep, c);
      assert SplitOn(s, sep) == [first] + SplitOn(rest, sep);
  }

  lemma PartWithout(s: string, i: nat, j: nat, c: char)
    requires i <= j <= |s| && c !in s
    ensures c !in s[..i] && c !in s[j..]
  {
  }

  lemma {:induction false} CutBlank(lines: seq<string>)
    ensures CutLines(lines + [""]) == CutLines(lines)
  {
    if lines == [] {
      assert [] + [""] == [""] && CutLine("") == [];
      assert CutLines([""]) == CutLine("") + CutLines([]);
    } else {
      assert (lines + [""])[1..] == lines[1..] + [""];
      CutBlank(lines[1..]);
    }
  }

  lemma ListReads(items: seq<Item>, h: Host)
    requires OneLiners(PathsOf(items, h))
    ensures ReadList(HEADER + Concat(LinesOf(items, h))) == CutLines(LineTexts(PathsOf(items, h)))
  {
    hide LinesOf, PathsOf, Concat, LineTexts;
    TextIsLines(items, h);
    TextsFree(PathsOf(items, h));
    LinesRead(LineTexts(PathsOf(items, h)));
  }

  lemma LinesRead(texts: seq<string>)
    requires forall t :: t in texts ==> Free(t, "\n")
    ensures ReadList(Join(["[copy]"] + texts + [""], "\n")) == CutLines(texts)
  {
    hide Join, CutLines, SplitOn;
    var lines := ["[copy]"] + texts + [""];
    FreeOfChar("[copy]", '\n');
    FreeOfChar("", '\n');
    SplitJoin(lines, "\n");
    assert lines[1..] == texts + [""];
    CutBlank(texts);
  }

  lemma {:induction false} SomePath(items: seq<Item>, h: Host)
    ensures |LinesOf(items, h)| == |PathsOf(items, h)|
  {
    if items != [] {
      SomePath(items[..|items| - 1], h);
    }
  }

  /** The list of a host, read back line by line, says for each of its items in fetch order which file
      goes where, exactly when no file name has a ": " in it. */
  lemma {:induction false} ReadBackIff(tmp: string, s: State, items: seq<Item>, h: Host)
    requires GoodTmp(tmp) && SingleNames(h) && CleanPaths(items)
    requires forall i :: i in items ==> !Overwrites(i, h)
    requires PathsOf(items, h) != [] && OneLiners(PathsOf(items, h))
    ensures var list := Content(Fetch(tmp, s, items).files, ConfPath(tmp, h));
            list.Some? && (ReadList(list.value) == Copies(PathsOf(items, h)) <==> NamesFree(PathsOf(items, h)))
  {
    hide ReadList;
    InstallConfExact(tmp, s, items, h);
    SomePath(items, h);
    ListReads(items, h);
    CutLinesIff(PathsOf(items, h));
  }

  // ---------- the configuration files ----------

  /** The item leaves its text as this file of the host. */
  predicate Writes(item: Item, h: Host, f: string) {
    && item.orgId == Some(h.org) && item.sysId == Some(h.sys) && item.hostname == Some(h.name)
    && item.fullPath.Some? && BaseName(item.fullPath.value) == f
    && item.configVersion.Some? && item.platform.Some?
    && (item.serviceName == Some("filebeat") || item.serviceName == Some("collector")) && item.written.Some?
  }

  function LastText(items: seq<Item>, h: Host, f: string): Option<string> {
    if items == [] then None
    else
      var last := items[|items| - 1];
      if Writes(last, h, f) then last.written else LastText(items[..|items| - 1], h, f)
  }

  lemma FileStep(tmp: string, s: State, item: Item, h: Host, f: string)
    requires GoodTmp(tmp) && SingleNames(h) && (HostOf(item).Some? ==> SingleNames(HostOf(item).value))
    requires SingleName(f) && f != INSTALL_CONF
    ensures Content(Process(tmp, s, item).files, PathJoin(HostDir(tmp, h), f))
         == if Writes(item, h, f) then item.written else Content(s.files, PathJoin(HostDir(tmp, h), f))
  {
    hide PathJoin, HostDir, CopyLine, NoteVersion, NotePlatform, SingleNames, GoodTmp;
    if HostOf(item).Some? && item.fullPath.Some? {
      var h', name := HostOf(item).value, BaseName(item.fullPath.value);
      hide BaseName;
      FilePathInjective(tmp, h, f, h', INSTALL_CONF);
      if SingleName(name) {
        FilePathInjective(tmp, h, f, h', name);
      }
    }
  }

  lemma {:induction false} FilesOfAll(tmp: string, s: State, items: seq<Item>, h: Host, f: string)
    requires GoodTmp(tmp) && SingleNames(h) && CleanPaths(items) && SingleName(f) && f != INSTALL_CONF
    requires s.files == map[]
    ensures Content(ProcessAll(tmp, s, items).files, PathJoin(HostDir(tmp, h), f)) == LastText(items, h, f)
    decreases |items|
  {
    hide Process, HostDir, PathJoin;
    if items != [] {
      var init, last := items[..|items| - 1], items[|items| - 1];
      assert last in items && forall i :: i in init ==> i in items;
      FilesOfAll(tmp, s, init, h, f);
      FileStep(tmp, ProcessAll(tmp, s, init), last, h, f);
    }
  }

  /** Every other file in the directory of a host: what the last of its items of that name wrote, which
      must have a version, a platform and one of the two services; without one there is no such file. */
  lemma ConfigFilesExact(tmp: string, s: State, items: seq<Item>, h: Host, f: string)
    requires GoodTmp(tmp) && SingleNames(h) && CleanPaths(items) && SingleName(f) && f != "install.conf"
    ensures Content(Fetch(tmp, s, items).files, tmp + "/" + h.org + "/" + h.sys + "/" + h.name + "/" + f)
         == LastText(items, h, f)
  {
    PathWritten(tmp, h, f);
    FilesOfAll(tmp, s.(dirs := {tmp}, files := map[]), items, h, f);
  }

  // ---------- directories ----------

  lemma HostDirInjective(tmp: string, h: Host, h': Host)
    requires GoodTmp(tmp) && SingleNames(h) && SingleNames(h')
    ensures HostDir(tmp, h) == HostDir(tmp, h') <==> h == h'
    ensures HostDir(tmp, h) != tmp
  {
    FilePathInjective(tmp, h, INSTALL_CONF, h', INSTALL_CONF);
    HostDirText(tmp, h);
  }

  lemma ProcessDirs(tmp: string, s: State, item: Item)
    ensures Process(tmp, s, item).dirs
         == if HostOf(item).Some? then s.dirs + {HostDir(tmp, HostOf(item).value)} else s.dirs
  {
  }

  /** An item of the host is among them. */
  predicate Mentions(items: seq<Item>, h: Host) {
    exists i :: i in items && HostOf(i) == Some(h)
  }

  /** A host has a directory exactly when an item of it was fetched. */
  lemma {:induction false} DirsExact(tmp: string, s: State, items: seq<Item>, h: Host)
    requires GoodTmp(tmp) && SingleNames(h) && CleanPaths(items) && HostDir(tmp, h) !in s.dirs
    ensures HostDir(tmp, h) in ProcessAll(tmp, s, items).dirs <==> Mentions(items, h)
    decreases |items|
  {
    if items != [] {
      var init, last := items[..|items| - 1], items[|items| - 1];
      assert last in items && forall i :: i in items <==> i in init || i == last;
      DirsExact(tmp, s, init, h);
      ProcessDirs(tmp, ProcessAll(tmp, s, init), last);
      if HostOf(last).Some? {
        HostDirInjective(tmp, h, HostOf(last).value);
      }
    }
  }

  /** So it is after any fetcher calls, by the items of the last. */
  lemma DirAfterFetch(tmp: string, fetches: seq<seq<Item>>, h: Host)
    requires GoodTmp(tmp) && SingleNames(h) && fetches != [] && CleanPaths(fetches[|fetches| - 1])
    ensures HostDir(tmp, h) in FetchAll(tmp, fetches).dirs <==> Mentions(fetches[|fetches| - 1], h)
  {
    var last := |fetches| - 1;
    HostDirInjective(tmp, h, h);
    DirsExact(tmp, FetchAll(tmp, fetches[..last]).(dirs := {tmp}, files := map[]), fetches[last], h);
  }

  // ---------- the module state and the manager ----------

  class Manager {
    const tmp: string
    var versions: map<string, int>
    var platforms: map<string, string>
    var dirs: set<string>
    var files: map<string, string>

    ghost function Snapshot(): State
      reads this
    {
      State(versions, platforms, dirs, files)
    }

    constructor (tmp: string)
      ensures this.tmp == tmp && Snapshot() == FetchAll(tmp, [])
    {
      this.tmp := tmp;
      versions, platforms, dirs, files := map[], map[], {}, map[];
    }

    method InstallConf(hostDir: string, fullPath: Option<string>) returns (ok: bool)
      modifies this`dirs, this`files
      ensures ok == fullPath.Some?
      ensures Snapshot() == if ok then AppendConf(old(Snapshot()), hostDir, fullPath.value)
                            else old(Snapshot()).(dirs := old(dirs) + {hostDir})
    {
      if hostDir !in dirs {
        dirs := dirs + {hostDir};
      }
      assert dirs == old(dirs) + {hostDir};
      if fullPath.None? {
        return false;
      }
      var configFile := BaseName(fullPath.value);
      var installConf := PathJoin(hostDir, INSTALL_CONF);
      var text := "";
      if installConf in files {
        text := files[installConf];
      } else {
        text := HEADER;
      }
      files := files[installConf := text + (configFile + ": " + fullPath.value + "\n")];
      return true;
    }

    /** The body of the loop, one item. */
    method HandleItem(item: Item)
      modifies this
      ensures Snapshot() == Process(tmp, old(Snapshot()), item)
    {
      if item.orgId.None? || item.sysId.None? || item.hostname.None? {
        return;
      }
      var h := Host(item.orgId.value, item.sysId.value, item.hostname.value);
      var hostDir := HostDir(tmp, h);
      var ok := InstallConf(hostDir, item.fullPath);
      if !ok || item.configVersion.None? {
        return;
      }
      var key := GenerateKey(h.org, h.sys, h.name);
      var version := item.configVersion.value;
      if key in versions {
        if versions[key] < version {
          versions := versions[key := version];
        }
      } else {
        versions := versions[key := version];
      }
      if item.platform.None? {
        return;
      }
      if key !in platforms {
        platforms := platforms[key := item.platform.value];
      }
      if item.serviceName.Some? && KnownService(item.serviceName.value) {
        var name := BaseName(item.fullPath.value);
        if item.written.Some? && SingleName(name) {
          files := files[PathJoin(hostDir, name) := item.written.value];
        }
      }
    }

    method Fetcher(items: seq<Item>)
      modifies this
      ensures Snapshot() == Fetch(tmp, old(Snapshot()), items)
    {
      dirs, files := {tmp}, map[];
      ghost var start := Snapshot();
      for k := 0 to |items|
        invariant Snapshot() == ProcessAll(tmp, start, items[..k])
      {
        HandleItem(items[k]);
        assert items[..k + 1][..k] == items[..k];
      }
      assert items[..|items|] == items;
    }
  }
}
