/** The publisher and the consumer together: the version.json text that packager writes, cut off and
    read by the agent. */
module Release {
  import opened Wrappers
  import opened Text
  import opened Versions
  import opened UAgent
  import opened VersionJson
  import M = UpdateManager

  const PACKAGE_FILE := "agent.tar.gz"
  const MAX_VERSION_FILE_SIZE := 1024
  const LOWEST := Version(1, 0, 0, 0)

  /** get_current_version: the three numbers the CMDB answers. */
  function CurrentVersion(major: int, minor: int, patch: int): string {
    PrintInt(major) + "." + PrintInt(minor) + "." + PrintInt(patch)
  }

  /** An object of strings. */
  function StrDoc(version: string, platform: string, checksum: string, upgradeFrom: string, packageFile: string): Doc {
    Doc(Str(version), Str(platform), Str(checksum), Str(upgradeFrom), Str(packageFile))
  }

  predicate IsStrDoc(d: Doc) {
    d.Doc? && d.version.Str? && d.platform.Str? && d.checksum.Str? && d.upgradeFrom.Str? && d.packageFile.Str?
  }

  /** The fields of the version.json of one host. */
  function PublishedDoc(currVersion: string, version: int, platform: string, checksum: string): Doc {
    StrDoc(currVersion + "." + PrintInt(version), platform, checksum,
           "1.0.0.0-" + currVersion + "." + PrintInt(version), PACKAGE_FILE)
  }

  function Publish(v: Version, platform: string, checksum: string): Doc {
    PublishedDoc(CurrentVersion(v.major, v.minor, v.patch), v.build, platform, checksum)
  }

  lemma VersionText(v: Version)
    ensures CurrentVersion(v.major, v.minor, v.patch) + "." + PrintInt(v.build) == Print(v)
  {
    var p := Parts(v);
    assert p[1..][1..][1..] == [PrintInt(v.build)];
    assert p[1..][1..] == [PrintInt(v.patch), PrintInt(v.build)];
    assert p[1..] == [PrintInt(v.minor), PrintInt(v.patch), PrintInt(v.build)];
    assert Join(p[1..][1..], ".") == PrintInt(v.patch) + "." + PrintInt(v.build);
    assert Join(p[1..], ".") == PrintInt(v.minor) + "." + (PrintInt(v.patch) + "." + PrintInt(v.build));
    assert Join(p, ".") == PrintInt(v.major) + "." + (PrintInt(v.minor) + "." + (PrintInt(v.patch) + "."
        + PrintInt(v.build)));
  }

  lemma LowestText()
    ensures Print(LOWEST) == "1.0.0.0"
  {
    VersionText(LOWEST);
    assert PrintInt(1) == "1" && PrintInt(0) == "0";
  }

  lemma PublishedTexts(v: Version, platform: string, checksum: string)
    ensures Publish(v, platform, checksum)
         == StrDoc(Print(v), platform, checksum, Print(LOWEST) + "-" + Print(v), PACKAGE_FILE)
  {
    VersionText(v);
    LowestText();
    var c := CurrentVersion(v.major, v.minor, v.patch);
    assert "1.0.0.0-" + c + "." + PrintInt(v.build) == "1.0.0.0" + "-" + (c + "." + PrintInt(v.build));
  }

  // ---------- a non-negative version is read back exactly ----------

  /** A release of strings whose version and range ends parse. */
  lemma ReadStrDoc(version: string, platform: string, checksum: string, upgradeFrom: string, packageFile: string,
                   parts: seq<string>, v: Version, lo: Version, hi: Version)
    requires version != "" && platform != "" && checksum != "" && upgradeFrom != "" && packageFile != ""
    requires Parse(version) == Some(v) && SplitOn(upgradeFrom, "-") == parts && |parts| >= 2
    requires Parse(parts[0]) == Some(lo) && Parse(parts[1]) == Some(hi)
    ensures ReadVersionFile(StrDoc(version, platform, checksum, upgradeFrom, packageFile))
         == Some(VersionFile(Some(v), Some(Str(platform)), Some(Str(checksum)), Some(lo), Some(hi),
                             Some(Str(packageFile))))
  {
  }

  lemma {:induction false} ReadPublished(v: Version, platform: string, checksum: string)
    requires NonNegative(v) && platform != "" && checksum != ""
    ensures ReadVersionFile(Publish(v, platform, checksum))
         == Some(VersionFile(Some(v), Some(Str(platform)), Some(Str(checksum)), Some(LOWEST), Some(v),
                             Some(Str(PACKAGE_FILE))))
  {
    hide ReadVersionFile;
    PublishedTexts(v, platform, checksum);
    RangeSplits(LOWEST, v);
    ParsePrint(v);
    ParsePrint(LOWEST);
    PrintNotEmpty(v);
    ReadStrDoc(Print(v), platform, checksum, PrintRange(LOWEST, v), PACKAGE_FILE, [Print(LOWEST), Print(v)], v, LOWEST,
               v);
  }

  lemma PrintNotEmpty(v: Version)
    ensures Print(v) != ""
  {
    VersionText(v);
  }

  // ---------- a negative component spoils the range ----------

  predicate HasNegative(ns: seq<int>) {
    ns != [] && (ns[0] < 0 || HasNegative(ns[1..]))
  }

  /** The printed components up to the dash of the first negative one. */
  function BeforeDash(ns: seq<int>): (r: seq<string>)
    ensures r != []
  {
    if ns == [] || ns[0] < 0 then [""] else [PrintInt(ns[0])] + BeforeDash(ns[1..])
  }

  /** What follows that dash. */
  function AfterDash(ns: seq<int>): string {
    if ns == [] then ""
    else if ns[0] < 0 then Join([PrintNat(-ns[0])] + Printed(ns[1..]), ".")
    else AfterDash(ns[1..])
  }

  lemma JoinMinus(first: string, rest: seq<string>)
    ensures Join(["-" + first] + rest, ".") == "-" + Join([first] + rest, ".")
  {
    if rest != [] {
      JoinCons("-" + first, rest, ".");
      JoinCons(first, rest, ".");
    }
  }

  lemma NegativeHead(ns: seq<int>)
    requires ns != [] && ns[0] < 0
    ensures Join(Printed(ns), ".") == Join(BeforeDash(ns), ".") + "-" + AfterDash(ns)
  {
    assert Printed(ns) == ["-" + PrintNat(-ns[0])] + Printed(ns[1..]);
    JoinMinus(PrintNat(-ns[0]), Printed(ns[1..]));
    assert Join([""], ".") + "-" == "-";
  }

  lemma {:induction false} DashSplits(ns: seq<int>)
    requires HasNegative(ns)
    ensures Join(Printed(ns), ".") == Join(BeforeDash(ns), ".") + "-" + AfterDash(ns)
  {
    if ns[0] < 0 {
      NegativeHead(ns);
    } else {
      var first, more := PrintInt(ns[0]), ns[1..];
      DashSplits(more);
      PrintedCons(ns);
      JoinCons(first, Printed(more), ".");
      JoinCons(first, BeforeDash(more), ".");
      Regroup(first + ".", Join(BeforeDash(more), "."), "-", AfterDash(more));
    }
  }

  lemma PrintedCons(ns: seq<int>)
    requires |ns| > 1
    ensures Printed(ns) == [PrintInt(ns[0])] + Printed(ns[1..]) && Printed(ns[1..]) != []
  {
  }

  lemma Regroup(a: string, b: string, c: string, d: string)
    ensures a + (b + c + d) == (a + b) + c + d
  {
  }

  lemma {:induction false} BeforeDashPlain(ns: seq<int>)
    ensures forall p :: p in BeforeDash(ns) ==> '.' !in p && '-' !in p
  {
    if ns != [] && ns[0] >= 0 {
      PrintIntPlain(ns[0]);
      BeforeDashPlain(ns[1..]);
    }
  }

  lemma BeforeDashShape(a: int, b: int, c: int, d: int)
    requires a < 0 || b < 0 || c < 0 || d < 0
    ensures BeforeDash([a, b, c, d])
         == if a < 0 then [""]
            else if b < 0 then [PrintInt(a), ""]
            else if c < 0 then [PrintInt(a), PrintInt(b), ""]
            else [PrintInt(a), PrintInt(b), PrintInt(c), ""]
  {
    assert [a, b, c, d][1..] == [b, c, d];
    assert [b, c, d][1..] == [c, d];
    assert [c, d][1..] == [d];
    if a >= 0 && b >= 0 {
      assert BeforeDash([c, d]) == if c < 0 then [""] else [PrintInt(c), ""];
      assert BeforeDash([b, c, d]) == [PrintInt(b)] + BeforeDash([c, d]);
    }
  }

  /** Cut before the dash, the components read as a version above the printed one. */
  lemma BeforeDashValue(v: Version)
    requires !NonNegative(v)
    ensures var w := FromParts(BeforeDash(Components(v))); w.Some? && Less(v, w.value)
  {
    BeforeDashShape(v.major, v.minor, v.patch, v.build);
    var parts := BeforeDash(Components(v));
    if v.major >= 0 {
      ReadComponent(parts, 0, v.major, 0);
      if v.minor >= 0 {
        ReadComponent(parts, 1, v.minor, MAXSIZE);
        if v.patch >= 0 {
          ReadComponent(parts, 2, v.patch, MAXSIZE);
        }
      }
    }
  }

  lemma BeforeDashParses(v: Version)
    requires !NonNegative(v)
    ensures var cut := Join(BeforeDash(Components(v)), ".");
            Free(cut, "-") && Parse(cut).Some? && Less(v, Parse(cut).value)
  {
    var parts := BeforeDash(Components(v));
    BeforeDashPlain(Components(v));
    BeforeDashValue(v);
    SplitDots(parts);
    NoDashInJoin(parts);
    FreeOfChar(Join(parts, "."), '-');
  }

  lemma ComponentsNegative(v: Version)
    requires !NonNegative(v)
    ensures HasNegative(Components(v)) && Printed(Components(v)) == Parts(v)
  {
    var ns := Components(v);
    assert ns[1..] == [v.minor, v.patch, v.build];
    assert ns[1..][1..] == [v.patch, v.build];
    assert ns[1..][1..][1..] == [v.build];
    assert HasNegative([v.build]) <==> v.build < 0;
    assert HasNegative([v.patch, v.build]) <==> v.patch < 0 || v.build < 0;
  }

  /** The upgradeFrom text splits at the dash after 1.0.0.0 and at the first minus sign. */
  lemma NegativeRangeSplits(v: Version)
    requires !NonNegative(v)
    ensures var cut, rest := Join(BeforeDash(Components(v)), "."), AfterDash(Components(v));
            SplitOn(Print(LOWEST) + "-" + Print(v), "-") == [Print(LOWEST), cut] + SplitOn(rest, "-")
  {
    var ns := Components(v);
    var cut, rest := Join(BeforeDash(ns), "."), AfterDash(ns);
    ComponentsNegative(v);
    DashSplits(ns);
    BeforeDashParses(v);
    PrintHasNoDash(LOWEST);
    TwoDashes(Print(LOWEST), cut, rest);
  }

  lemma TwoDashes(a: string, b: string, rest: string)
    requires Free(a, "-") && Free(b, "-")
    ensures SplitOn(a + "-" + (b + "-" + rest), "-") == [a, b] + SplitOn(rest, "-")
  {
    SplitFirst(a, "-", b + "-" + rest);
    SplitFirst(b, "-", rest);
  }

  /** The upper end of a published range with a negative component lies above the version. */
  lemma {:induction false} NegativeRangeInvalid(v: Version, platform: string, checksum: string)
    requires !NonNegative(v) && platform != "" && checksum != ""
    ensures var f := ReadVersionFile(Publish(v, platform, checksum));
            f.Some? && f.value.version == Some(v) && f.value.upgradeMax.Some? && !ValidRange(f.value)
  {
    hide ReadVersionFile;
    var cut, rest := Join(BeforeDash(Components(v)), "."), AfterDash(Components(v));
    PublishedTexts(v, platform, checksum);
    NegativeRangeSplits(v);
    BeforeDashParses(v);
    ParsePrint(LOWEST);
    ParsePrint(v);
    PrintNotEmpty(v);
    ReadStrDoc(Print(v), platform, checksum, Print(LOWEST) + "-" + Print(v), PACKAGE_FILE,
               [Print(LOWEST), cut] + SplitOn(rest, "-"), v, LOWEST, Parse(cut).value);
  }

  // ---------- the text ----------

  function FieldsOf(d: Doc): Fields
    requires IsStrDoc(d)
  {
    [("version", d.version.text), ("platform", d.platform.text), ("checksum", d.checksum.text),
     ("upgradeFrom", d.upgradeFrom.text), ("packageFile", d.packageFile.text)]
  }

  /** The file that packager writes. */
  function TextOf(d: Doc): string
    requires IsStrDoc(d)
  {
    PrintObject(FieldsOf(d))
  }

  function DocOf(fs: Fields): Doc {
    StrDoc(Get(fs, "version"), Get(fs, "platform"), Get(fs, "checksum"), Get(fs, "upgradeFrom"), Get(fs, "packageFile"))
  }

  /** The file as the agent reads it: its first 1024 characters. None for a text that is neither an
      object of plain strings nor surely no JSON. */
  function ReadText(text: string): Option<Doc> {
    var t := Take(text, MAX_VERSION_FILE_SIZE);
    match ReadObject(t)
    case None => if Unclosed(t) then Some(Corrupt) else None
    case Some(fs) => Some(DocOf(fs))
  }

  predicate PlainDoc(d: Doc) {
    IsStrDoc(d) && PlainText(d.version.text) && PlainText(d.platform.text) && PlainText(d.checksum.text)
        && PlainText(d.upgradeFrom.text) && PlainText(d.packageFile.text)
  }

  lemma GetSnoc(fs: Fields, field: (string, string), name: string)
    ensures Get(fs + [field], name) == if field.0 == name then field.1 else Get(fs, name)
  {
    assert (fs + [field])[..|fs|] == fs;
  }

  lemma NamesDiffer()
    ensures "version" != "platform" && "version" != "checksum" && "version" != "upgradeFrom"
         && "version" != "packageFile" && "platform" != "checksum" && "platform" != "upgradeFrom"
         && "platform" != "packageFile" && "checksum" != "upgradeFrom" && "checksum" != "packageFile"
         && "upgradeFrom" != "packageFile"
  {
    assert "platform"[0] == 'p' && "checksum"[0] == 'c' && "upgradeFrom"[0] == 'u' && "packageFile"[0] == 'p';
  }

  lemma GetOne(d: Doc, name: string)
    requires IsStrDoc(d)
    ensures Get(FieldsOf(d), name)
         == if name == "packageFile" then d.packageFile.text
            else if name == "upgradeFrom" then d.upgradeFrom.text
            else if name == "checksum" then d.checksum.text
            else if name == "platform" then d.platform.text
            else if name == "version" then d.version.text
            else ""
  {
    var a, b, c := ("version", d.version.text), ("platform", d.platform.text), ("checksum", d.checksum.text);
    var u, p := ("upgradeFrom", d.upgradeFrom.text), ("packageFile", d.packageFile.text);
    assert FieldsOf(d) == [] + [a] + [b] + [c] + [u] + [p];
    GetSnoc([] + [a] + [b] + [c] + [u], p, name);
    GetSnoc([] + [a] + [b] + [c], u, name);
    GetSnoc([] + [a] + [b], c, name);
    GetSnoc([] + [a], b, name);
    GetSnoc([], a, name);
  }

  lemma GetFields(d: Doc)
    requires IsStrDoc(d)
    ensures DocOf(FieldsOf(d)) == d
  {
    NamesDiffer();
    GetOne(d, "version");
    GetOne(d, "platform");
    GetOne(d, "checksum");
    GetOne(d, "upgradeFrom");
    GetOne(d, "packageFile");
  }

  /** A written document is read as itself when all but its last newline is among the first 1024
      characters, and as no document otherwise. */
  lemma {:induction false} TextReads(d: Doc)
    requires PlainDoc(d)
    ensures ReadText(TextOf(d)) == Some(if |TextOf(d)| <= 1025 then d else Corrupt)
  {
    var text := TextOf(d);
    var n := |Take(text, MAX_VERSION_FILE_SIZE)|;
    assert text[..n] == Take(text, MAX_VERSION_FILE_SIZE);
    NamesArePlain(d);
    CutObjectReads(FieldsOf(d), n);
    GetFields(d);
  }

  lemma NamesArePlain(d: Doc)
    requires PlainDoc(d)
    ensures PlainFields(FieldsOf(d))
  {
  }

  lemma EntryLength(field: (string, string), rest: Fields)
    ensures |Entries([field] + rest)|
         == |field.0| + |field.1| + 5 + if rest == [] then 3 else 7 + |Entries(rest)|
  {
    assert ([field] + rest)[1..] == rest;
  }

  lemma {:induction false} TextLength(d: Doc)
    requires IsStrDoc(d)
    ensures |TextOf(d)| == 108 + |d.version.text| + |d.platform.text| + |d.checksum.text| + |d.upgradeFrom.text|
                         + |d.packageFile.text|
  {
    var a, b, c := ("version", d.version.text), ("platform", d.platform.text), ("checksum", d.checksum.text);
    var u, p := ("upgradeFrom", d.upgradeFrom.text), ("packageFile", d.packageFile.text);
    EntryLength(p, []);
    EntryLength(u, [p] + []);
    EntryLength(c, [u] + ([p] + []));
    EntryLength(b, [c] + ([u] + ([p] + [])));
    EntryLength(a, [b] + ([c] + ([u] + ([p] + []))));
    assert FieldsOf(d) == [a] + ([b] + ([c] + ([u] + ([p] + []))));
  }

  // ---------- agreement ----------

  function PublishedText(v: Version, platform: string, checksum: string): string {
    TextOf(Publish(v, platform, checksum))
  }

  /** One line of the file. */
  function FieldLine(name: string, value: string): string {
    "    \"" + name + "\": \"" + value + "\""
  }

  lemma LineThen(name: string, value: string, rest: Fields)
    requires rest != []
    ensures "    \"" + Entries([(name, value)] + rest)
         == FieldLine(name, value) + ",\n" + ("    \"" + Entries(rest))
  {
    assert ([(name, value)] + rest)[1..] == rest;
    assert Entries([(name, value)] + rest) == Entry((name, value)) + (COMMA + QUOTE + Entries(rest));
    assert "    \"" + (name + QUOTE + COLON + QUOTE + value + QUOTE) == FieldLine(name, value);
    assert COMMA + QUOTE + Entries(rest) == ",\n" + ("    \"" + Entries(rest));
  }

  lemma LineLast(name: string, value: string)
    ensures "    \"" + Entries([(name, value)]) == FieldLine(name, value) + "\n}\n"
  {
    assert "    \"" + (name + QUOTE + COLON + QUOTE + value + QUOTE) == FieldLine(name, value);
  }

  lemma LinesText(d: Doc)
    requires IsStrDoc(d)
    ensures TextOf(d) == "{\n" + (FieldLine("version", d.version.text) + ",\n" + (
                         FieldLine("platform", d.platform.text) + ",\n" + (
                         FieldLine("checksum", d.checksum.text) + ",\n" + (
                         FieldLine("upgradeFrom", d.upgradeFrom.text) + ",\n" + (
                         FieldLine("packageFile", d.packageFile.text) + "\n}\n")))))
  {
    hide Entries, FieldLine;
    var a, b, c := ("version", d.version.text), ("platform", d.platform.text), ("checksum", d.checksum.text);
    var u, p := ("upgradeFrom", d.upgradeFrom.text), ("packageFile", d.packageFile.text);
    assert FieldsOf(d) == [a] + ([b] + ([c] + ([u] + [p])));
    LineThen(a.0, a.1, [b] + ([c] + ([u] + [p])));
    LineThen(b.0, b.1, [c] + ([u] + [p]));
    LineThen(c.0, c.1, [u] + [p]);
    LineThen(u.0, u.1, [p]);
    LineLast(p.0, p.1);
    Indented(Entries(FieldsOf(d)));
  }

  lemma Indented(rest: string)
    ensures OPENING + QUOTE + rest == "{\n" + ("    \"" + rest)
  {
  }

  /** The file in full: the current version of the CMDB with the build number, and a range that ends
      at that same version. */
  lemma PublishedLines(v: Version, platform: string, checksum: string, version: string)
    requires version == PrintInt(v.major) + "." + PrintInt(v.minor) + "." + PrintInt(v.patch) + "." + PrintInt(v.build)
    ensures PublishedText(v, platform, checksum)
         == "{\n" + (FieldLine("version", version) + ",\n" + (
            FieldLine("platform", platform) + ",\n" + (
            FieldLine("checksum", checksum) + ",\n" + (
            FieldLine("upgradeFrom", "1.0.0.0-" + version) + ",\n" + (
            FieldLine("packageFile", "agent.tar.gz") + "\n}\n")))))
  {
    hide TextOf, FieldLine;
    var c := CurrentVersion(v.major, v.minor, v.patch);
    assert "1.0.0.0-" + c + "." + PrintInt(v.build) == "1.0.0.0-" + (c + "." + PrintInt(v.build));
    LinesText(Publish(v, platform, checksum));
  }

  /** Its length. */
  function Size(v: Version, platform: string, checksum: string): nat {
    128 + 2 * |Print(v)| + |platform| + |checksum|
  }

  lemma PublishedSize(v: Version, platform: string, checksum: string)
    ensures |PublishedText(v, platform, checksum)| == Size(v, platform, checksum)
  {
    TextLength(Publish(v, platform, checksum));
    PublishedTexts(v, platform, checksum);
    LowestText();
    assert |Print(LOWEST)| == 7 && |PACKAGE_FILE| == 12;
  }

  lemma PrintIsPlain(v: Version)
    ensures PlainText(Print(v))
  {
    VersionText(v);
    PrintIntIsPlain(v.major);
    PrintIntIsPlain(v.minor);
    PrintIntIsPlain(v.patch);
    PrintIntIsPlain(v.build);
  }

  lemma PrintIntIsPlain(n: int)
    ensures PlainText(PrintInt(n))
  {
    var s := PrintInt(n);
    assert forall i :: 0 <= i < |s| ==> IsDigit(s[i]) || s[i] == '-';
  }

  lemma PublishedIsPlain(v: Version, platform: string, checksum: string)
    requires PlainText(platform) && PlainText(checksum)
    ensures PlainDoc(Publish(v, platform, checksum))
  {
    hide Publish, PrintRange;
    PublishedTexts(v, platform, checksum);
    PrintIsPlain(v);
    PrintIsPlain(LOWEST);
    JoinIsPlain(Print(LOWEST), "-", Print(v));
    assert PlainText(PACKAGE_FILE);
  }

  lemma JoinIsPlain(a: string, b: string, c: string)
    requires PlainText(a) && PlainText(b) && PlainText(c)
    ensures PlainText(a + b + c)
  {
  }

  lemma PublishedReads(v: Version, platform: string, checksum: string)
    requires PlainText(platform) && PlainText(checksum)
    ensures ReadText(PublishedText(v, platform, checksum))
         == Some(if Size(v, platform, checksum) <= MAX_VERSION_FILE_SIZE + 1 then Publish(v, platform, checksum)
                 else Corrupt)
  {
    PublishedIsPlain(v, platform, checksum);
    TextReads(Publish(v, platform, checksum));
    PublishedSize(v, platform, checksum);
  }

  /** A platform or a checksum that packager writes unchanged between quotes. */
  predicate Unescaped(s: string) {
    s != "" && PlainText(s)
  }

  /** The agent reads what packager writes as a well-formed release exactly when no component is
      negative and the file has at most 1025 characters. */
  lemma {:induction false} PublishedAcceptedIff(v: Version, platform: string, checksum: string)
    requires Unescaped(platform) && Unescaped(checksum)
    ensures var doc := ReadText(PublishedText(v, platform, checksum));
            var f := if doc.Some? then ReadVersionFile(doc.value) else None;
            f.Some? && (ValidAttributes(f.value, platform) && ValidRange(f.value) <==>
                          NonNegative(v) && Size(v, platform, checksum) <= 1025)
  {
    PublishedReads(v, platform, checksum);
    if NonNegative(v) {
      ReadPublished(v, platform, checksum);
    } else {
      NegativeRangeInvalid(v, platform, checksum);
    }
  }

  /** The answer to a download: a Content-Length above the limit is refused. */
  function SizeAnswer(header: bool, size: nat): ExitCode {
    if header && size > MAX_VERSION_FILE_SIZE then ERR_PACKAGE_FILE_TOO_BIG else OK
  }

  /** The location serves this version.json, and everything else is as it should be. */
  predicate Hosts(srv: Server, text: string, checksum: string, header: bool) {
    && srv.jsonDownload == SizeAnswer(header, |text|) && srv.jsonSigDownload == OK
    && srv.doc.Some? && (ReadText(text).Some? ==> srv.doc == ReadText(text)) && srv.docSigned
    && srv.packageDownload == OK && srv.packageSigDownload == OK
    && srv.packageChecksum == checksum && srv.packageSigned && srv.unpack == OK && srv.install == OK
  }

  /** The version.json that is installed is one the agent can use. */
  ghost predicate Usable(platform: string, installed: Installed) {
    installed.Some? && var f := ReadVersionFile(installed.value); f.Some? && ValidAttributes(f.value, platform)
  }

  /** No negative component, and short enough to be downloaded and read. */
  predicate Acceptable(v: Version, platform: string, checksum: string, header: bool) {
    NonNegative(v) && Size(v, platform, checksum) <= if header then 1024 else 1025
  }

  /** A published release allows the upgrade exactly for its own platform, when it is acceptable, from
      1.0.0.0 up to its version. */
  lemma PublishedUpgrades(platform: string, installed: Installed, v: Version, published: string, checksum: string)
    requires Unescaped(published) && Unescaped(checksum) && Usable(platform, installed)
    ensures Upgrades(platform, installed, ReadText(PublishedText(v, published, checksum)))
       <==> && published == platform && Acceptable(v, published, checksum, false)
            && LessEq(LOWEST, VersionOf(installed).value) && Less(VersionOf(installed).value, v)
  {
    PublishedReads(v, published, checksum);
    PublishedAcceptedIff(v, published, checksum);
    if NonNegative(v) {
      ReadPublished(v, published, checksum);
      TotalOrder(v, v, v);
    } else {
      NegativeRangeInvalid(v, published, checksum);
    }
  }

  lemma PackageName()
    ensures SingleName(BaseName(PACKAGE_FILE)) && '/' !in PACKAGE_FILE && BaseName(PACKAGE_FILE) != VERSION_JSON
  {
    BaseNamePlain(PACKAGE_FILE);
    assert PACKAGE_FILE[0] == 'a' && VERSION_JSON[0] == 'v';
  }

  /** How an attempt ends on a location that serves V for the published platform: it upgrades exactly
      when that is the agent's, V is acceptable, and the installed v has 1.0.0.0 <= v < V. */
  ghost predicate UpgradesTo(r: (Outcome, Installed), platform: string, installed: Installed, v: Version,
                             published: string, checksum: string, header: bool)
    requires Usable(platform, installed)
  {
    if && published == platform && Acceptable(v, published, checksum, header)
       && LessEq(LOWEST, VersionOf(installed).value) && Less(VersionOf(installed).value, v)
    then r == (Exit(OK), Some(Publish(v, published, checksum)))
    else r.0 != Exit(OK) && r.1 == installed
  }

  lemma {:induction false} PublishedUpgradesIff(platform: string, installed: Installed, url: string, srv: Server,
                                                v: Version, published: string, checksum: string, header: bool)
    requires Unescaped(published) && Unescaped(checksum) && Usable(platform, installed)
    requires IsHttps(url + "/version.json") && Hosts(srv, PublishedText(v, published, checksum), checksum, header)
    ensures UpgradesTo(UpgradeOnce(platform, installed, url, srv), platform, installed, v, published, checksum, header)
  {
    hide UpgradeOnce;
    AttemptOkIff(platform, installed, url, srv);
    PublishedSize(v, published, checksum);
    PublishedUpgrades(platform, installed, v, published, checksum);
    PackageName();
    PublishedReads(v, published, checksum);
    if Acceptable(v, published, checksum, header) {
      ReadPublished(v, published, checksum);
    }
  }

  // ---------- from the fetched configurations to the agent ----------

  /** packager for one host: None when it has no directory, or VERSIONS or PLATFORMS lacks the key. */
  function Package(tmp: string, s: M.State, h: M.Host, currVersion: string, checksum: string): Option<string> {
    var key := M.KeyOf(h);
    if M.HostDir(tmp, h) in s.dirs && key in s.versions && key in s.platforms
    then Some(TextOf(PublishedDoc(currVersion, s.versions[key], s.platforms[key], checksum)))
    else None
  }

  /** After any fetcher calls since the module was loaded, the last of which had an item of a host
      whose key no other host used, packager writes a release whose build number is the largest
      fetched configVersion, for the first platform fetched. */
  lemma {:induction false} FetchedIsPublished(tmp: string, fetches: seq<seq<M.Item>>, h: M.Host, major: int, minor: int,
                                              patch: int, checksum: string)
    requires M.GoodTmp(tmp) && M.SingleNames(h) && fetches != [] && M.CleanPaths(fetches[|fetches| - 1])
    requires M.OwnItems(M.AllItems(fetches), h) && M.PlatformsOf(M.AllItems(fetches), h) != []
    requires M.Mentions(fetches[|fetches| - 1], h)
    ensures exists b ::
      && M.IsMaximum(b, M.VersionsOf(M.AllItems(fetches), h))
      && Package(tmp, M.FetchAll(tmp, fetches), h, CurrentVersion(major, minor, patch), checksum)
         == Some(PublishedText(Version(major, minor, patch, b), M.PlatformsOf(M.AllItems(fetches), h)[0], checksum))
  {
    var items, s := M.AllItems(fetches), M.FetchAll(tmp, fetches);
    M.FetchesFold(tmp, fetches, h);
    PlatformNeedsVersion(items, h);
    M.DirAfterFetch(tmp, fetches, h);
    var b := s.versions[M.KeyOf(h)];
    assert M.IsMaximum(b, M.VersionsOf(items, h));
  }

  /** From the alert daemon's items to the agent: what the location of a host then serves upgrades an
      agent of the first fetched platform exactly from 1.0.0.0 up to that release. */
  lemma {:induction false} FetchedReachesAgent(tmp: string, fetches: seq<seq<M.Item>>, h: M.Host, major: int,
                                               minor: int, patch: int, checksum: string, header: bool,
                                               platform: string, installed: Installed, url: string, srv: Server)
    requires M.GoodTmp(tmp) && M.SingleNames(h) && fetches != [] && M.CleanPaths(fetches[|fetches| - 1])
    requires M.OwnItems(M.AllItems(fetches), h) && Unescaped(checksum) && Usable(platform, installed)
    requires var ps := M.PlatformsOf(M.AllItems(fetches), h); ps != [] && Unescaped(ps[0])
    requires M.Mentions(fetches[|fetches| - 1], h)
    requires var p := Package(tmp, M.FetchAll(tmp, fetches), h, CurrentVersion(major, minor, patch), checksum);
             p.Some? ==> Hosts(srv, p.value, checksum, header)
    requires IsHttps(url + "/version.json")
    ensures exists b ::
      && M.IsMaximum(b, M.VersionsOf(M.AllItems(fetches), h))
      && UpgradesTo(UpgradeOnce(platform, installed, url, srv), platform, installed, Version(major, minor, patch, b),
                    M.PlatformsOf(M.AllItems(fetches), h)[0], checksum, header)
  {
    hide UpgradeOnce;
    var items := M.AllItems(fetches);
    var first := M.PlatformsOf(items, h)[0];
    FetchedIsPublished(tmp, fetches, h, major, minor, patch, checksum);
    var b :| && M.IsMaximum(b, M.VersionsOf(items, h))
             && Package(tmp, M.FetchAll(tmp, fetches), h, CurrentVersion(major, minor, patch), checksum)
                == Some(PublishedText(Version(major, minor, patch, b), first, checksum));
    PublishedUpgradesIff(platform, installed, url, srv, Version(major, minor, patch, b), first, checksum, header);
  }

  lemma {:induction false} PlatformNeedsVersion(items: seq<M.Item>, h: M.Host)
    ensures M.PlatformsOf(items, h) != [] ==> M.VersionsOf(items, h) != []
  {
    if items != [] {
      PlatformNeedsVersion(items[..|items| - 1], h);
    }
  }
}
