/** The upgrade agent of uagent.py: one upgrade attempt from one location, and run(), which tries
    the locations in order. Network, signatures, archives and the install script are oracles. */
module UAgent {
  import opened Wrappers
  import opened Text
  import opened Versions

  datatype ExitCode =
    | OK
    | WARN_VERSION_SAME
    | WARN_OLD_VERSION_NOT_IN_RANGE
    | ERR_OLD_VERSION_MISSING
    | ERR_NEW_VERSION_MISSING
    | ERR_PARSING_OLD_VERSION
    | ERR_PARSING_NEW_VERSION
    | ERR_BAD_CHECKSUM
    | ERR_UNPACK_TARFILE
    | ERR_INSTALL_SCRIPT_MISSING
    | ERR_INSTALL_SCRIPT_FAILED
    | ERR_PACKAGE_FILE_MISSING
    | ERR_BAD_SIGNATURE
    | ERR_DOWNLOAD_FAILED
    | ERR_PACKAGE_FILE_TOO_BIG
    | ERR_BAD_SERVER_URL

  /** A call ends with an exit code, or an exception leaves it. */
  datatype Outcome = Exit(code: ExitCode) | Raised

  // ---------- version.json ----------

  /** A field of a version.json: a string, "" also for an absent or false one, or anything else. */
  datatype Value = Str(text: string) | Other

  /** What json.loads makes of a version.json: not JSON at all, JSON that is no object, or an object. */
  datatype Doc =
    | Corrupt
    | NoObject
    | Doc(version: Value, platform: Value, checksum: Value, upgradeFrom: Value, packageFile: Value)

  /** A VersionFile object: the attributes its constructor got to set. */
  datatype VersionFile = VersionFile(
    version: Option<Version>,
    platform: Option<Value>,
    checksum: Option<Value>,
    upgradeMin: Option<Version>,
    upgradeMax: Option<Version>,
    packageFile: Option<Value>)

  const BLANK := VersionFile(None, None, None, None, None, None)

  function Field(v: Value): Option<Value> {
    if v == Str("") then None else Some(v)
  }

  /** The constructor: a ValueError ends it early and is swallowed. The AttributeError of JSON that is
      no object, or of splitting what is no string, and the IndexError of a range without a dash are
      not (None). */
  function ReadVersionFile(doc: Doc): Option<VersionFile> {
    match doc
    case Corrupt => Some(BLANK)
    case NoObject => None
    case Doc(version, platform, checksum, upgradeFrom, packageFile) =>
      if version.Other? then None
      else
        var v := if version.text == "" then None else Parse(version.text);
        if version.text != "" && v.None? then Some(BLANK)
        else
          var f := BLANK.(version := v, platform := Field(platform), checksum := Field(checksum));
          if upgradeFrom.Other? then None
          else if upgradeFrom.text == "" then Some(f.(packageFile := Field(packageFile)))
          else
            var r := SplitOn(upgradeFrom.text, "-");
            var lo := Parse(r[0]);
            if lo.None? then Some(f)
            else if |r| < 2 then None
            else
              var hi := Parse(r[1]);
              if hi.None? then Some(f.(upgradeMin := lo))
              else Some(f.(upgradeMin := lo, upgradeMax := hi, packageFile := Field(packageFile)))
  }

  predicate ValidAttributes(f: VersionFile, platform: string) {
    && f.version.Some? && f.platform.Some? && f.checksum.Some?
    && f.upgradeMin.Some? && f.upgradeMax.Some? && f.packageFile.Some?
    && Str(platform) == f.platform.value
  }

  /** validate_version_range, called on files with valid attributes only. */
  predicate ValidRange(f: VersionFile)
    requires f.upgradeMax.Some? && f.version.Some?
  {
    LessEq(f.upgradeMax.value, f.version.value)
  }

  /** A string that the constructor turns into a version, or skips because it is empty. */
  predicate EmptyOrVersion(v: Value) {
    v.Str? && (v.text == "" || Parse(v.text).Some?)
  }

  /** The constructor raises exactly for JSON that is no object, a version that is no string, and,
      once past the version, an upgradeFrom that is no string or a version without a dash. */
  lemma {:induction false} ReadRaisesIff(doc: Doc)
    ensures ReadVersionFile(doc).None? <==>
            || doc.NoObject?
            || (doc.Doc? && doc.version.Other?)
            || (doc.Doc? && EmptyOrVersion(doc.version) && doc.upgradeFrom.Other?)
            || (doc.Doc? && EmptyOrVersion(doc.version) && EmptyOrVersion(doc.upgradeFrom)
                && doc.upgradeFrom.text != "" && '-' !in doc.upgradeFrom.text)
  {
    if doc.Doc? && doc.upgradeFrom.Str? {
      SplitsAtChar(doc.upgradeFrom.text, '-');
    }
  }

  /** The files an attempt can compare: a version, the platform of the agent, a checksum, both ends of a
      range and a package, none of them missing or empty; everything else is refused or raises. */
  lemma {:induction false} UsableIff(doc: Doc, platform: string)
    ensures ReadVersionFile(doc).Some? && ValidAttributes(ReadVersionFile(doc).value, platform) <==>
            && doc.Doc? && platform != "" && doc.platform == Str(platform)
            && doc.version.Str? && doc.version.text != "" && Parse(doc.version.text).Some?
            && doc.checksum != Str("") && doc.packageFile != Str("")
            && doc.upgradeFrom.Str? && doc.upgradeFrom.text != ""
            && var r := SplitOn(doc.upgradeFrom.text, "-");
               |r| >= 2 && Parse(r[0]).Some? && Parse(r[1]).Some?
  {
  }

  /** What it takes from such a file. */
  lemma {:induction false} UsableReads(doc: Doc, platform: string)
    requires doc.Doc? && ReadVersionFile(doc).Some? && ValidAttributes(ReadVersionFile(doc).value, platform)
    ensures var f, r := ReadVersionFile(doc).value, SplitOn(doc.upgradeFrom.text, "-");
            && f.version == Parse(doc.version.text) && f.checksum == Some(doc.checksum)
            && f.upgradeMin == Parse(r[0]) && f.upgradeMax == Parse(r[1]) && f.packageFile == Some(doc.packageFile)
  {
  }

  // ---------- the oracles ----------

  const VERSION_JSON := "version.json"

  /** Everything one location answers during one attempt. */
  datatype Server = Server(
    jsonDownload: ExitCode,
    jsonSigDownload: ExitCode,
    doc: Option<Doc>,           // the version.json it serves; None when something removes the download
    docSigned: bool,
    packageDownload: ExitCode,
    packageSigDownload: ExitCode,
    package: Doc,               // the package it serves, as it would read as a version.json
    packageElsewhere: bool,     // whether a package path with a slash leads to a file
    packageChecksum: string,
    packageSigned: bool,
    unpack: ExitCode,
    install: ExitCode)

  /** The documents and packages in the download directory, by file name. */
  type Area = map<string, Doc>

  function InArea(area: Area, name: string): Option<Doc> {
    if name in area then Some(area[name]) else None
  }

  predicate IsHttps(url: string) {
    var p := "https://";
    |p| <= |url| && Lower(url)[..|p|] == p
  }

  /** The scheme is read without regard to case. */
  lemma HttpsIff(url: string)
    ensures IsHttps(url) <==> exists scheme, rest :: url == scheme + rest && Lower(scheme) == "https://"
  {
    if IsHttps(url) {
      assert Lower(url[..8]) == Lower(url)[..8];
      assert url == url[..8] + url[8..];
    }
    forall scheme, rest | url == scheme + rest && Lower(scheme) == "https://" ensures IsHttps(url) {
      assert Lower(url)[..8] == Lower(scheme);
    }
  }

  /** download_file; a last component that is no file name makes the open fail. */
  function DownloadFile(url: string, answer: ExitCode): ExitCode {
    if !IsHttps(url) then ERR_BAD_SERVER_URL
    else if answer == OK && !SingleName(BaseName(url)) then ERR_DOWNLOAD_FAILED
    else answer
  }

  /** The file that a download leaves, under the last component of its URL. */
  function Store(area: Area, url: string, content: Doc): Area {
    area[BaseName(url) := content]
  }

  /** os.path.isfile on the package: a plain name is looked up in the download directory. */
  predicate PackageOnDisk(packageFile: string, area: Area, srv: Server) {
    if '/' in packageFile then srv.packageElsewhere else packageFile in area
  }

  /** The file has a checksum and names a package by a string. */
  predicate NamesPackage(f: VersionFile) {
    f.checksum.Some? && f.packageFile.Some? && f.packageFile.value.Str?
  }

  function ValidatePackage(f: VersionFile, area: Area, srv: Server): ExitCode
    requires NamesPackage(f)
  {
    if !PackageOnDisk(f.packageFile.value.text, area, srv) then ERR_PACKAGE_FILE_MISSING
    else if Str(srv.packageChecksum) != f.checksum.value then ERR_BAD_CHECKSUM
    else if !srv.packageSigned then ERR_BAD_SIGNATURE
    else OK
  }

  // ---------- one attempt ----------

  type Installed = Option<Doc>

  /** The checks between the download of version.json and that of the package. */
  function CheckVersions(platform: string, installed: Installed, served: Option<Doc>, signed: bool): Outcome {
    if installed.None? then Exit(ERR_OLD_VERSION_MISSING)
    else if served.None? then Exit(ERR_NEW_VERSION_MISSING)
    else if !signed then Exit(ERR_BAD_SIGNATURE)
    else
      var old_, new_ := ReadVersionFile(installed.value), ReadVersionFile(served.value);
      if old_.None? || new_.None? then Raised
      else if !ValidAttributes(old_.value, platform) then Exit(ERR_PARSING_OLD_VERSION)
      else if !ValidAttributes(new_.value, platform) || !ValidRange(new_.value) then Exit(ERR_PARSING_NEW_VERSION)
      else
        var v, n := old_.value.version.value, new_.value;
        if GreaterEq(v, n.version.value) then Exit(WARN_VERSION_SAME)
        else if Less(v, n.upgradeMin.value) || LessEq(n.upgradeMax.value, v) then Exit(WARN_OLD_VERSION_NOT_IN_RANGE)
        else Exit(OK)
  }

  /** The package part, for a version file that names a package, and the download directory after it. */
  function FetchAndInstall(url: string, f: VersionFile, area: Area, srv: Server): (ExitCode, Area)
    requires NamesPackage(f)
  {
    var pkg := url + "/" + f.packageFile.value.text;
    var a, b := DownloadFile(pkg, srv.packageDownload), DownloadFile(pkg + ".sig", srv.packageSigDownload);
    if a != OK then (a, area)
    else
      var with := Store(area, pkg, srv.package);
      var code :=
        if b != OK then b
        else if ValidatePackage(f, with, srv) != OK then ValidatePackage(f, with, srv)
        else if !srv.packageSigned then ERR_BAD_SIGNATURE
        else if srv.unpack != OK then srv.unpack
        else srv.install;
      (code, with)
  }

  /** The download directory, empty at first, after version.json was fetched. */
  function FirstDownload(url: string, srv: Server): Area {
    if srv.doc.None? then map[] else Store(map[], url + "/version.json", srv.doc.value)
  }

  /** upgrade_once: how it ends and the version.json that is installed then. Joining a packageFile that
      is no string to the URL raises a TypeError. */
  function UpgradeOnce(platform: string, installed: Installed, url: string, srv: Server): (Outcome, Installed) {
    var a := DownloadFile(url + "/version.json", srv.jsonDownload);
    var b := DownloadFile(url + "/version.json.sig", srv.jsonSigDownload);
    if a != OK then (Exit(a), installed)
    else if b != OK then (Exit(b), installed)
    else
      var area := FirstDownload(url, srv);
      var served := InArea(area, VERSION_JSON);
      var checked := CheckVersions(platform, installed, served, srv.docSigned);
      if checked != Exit(OK) then (checked, installed)
      else if !NamesPackage(ReadVersionFile(served.value).value) then (Raised, installed)
      else
        var r := FetchAndInstall(url, ReadVersionFile(served.value).value, area, srv);
        if r.0 != OK then (Exit(r.0), installed) else (Exit(OK), InArea(r.1, VERSION_JSON))
  }

  lemma VersionUrls(url: string)
    ensures url + "/" + VERSION_JSON == url + "/version.json"
    ensures url + "/" + VERSION_JSON + ".sig" == url + "/version.json.sig"
  {
  }

  /** version.json comes back from the directory as it was served. */
  lemma FreshIsServed(url: string, srv: Server)
    ensures InArea(FirstDownload(url, srv), VERSION_JSON) == srv.doc
  {
    VersionUrls(url);
    BaseNameTail(url, VERSION_JSON);
    BaseNamePlain(VERSION_JSON);
  }

  /** The version a version.json on disk shows to the agent. */
  function VersionOf(installed: Installed): Option<Version> {
    if installed.None? then None
    else
      var f := ReadVersionFile(installed.value);
      if f.None? then None else f.value.version
  }

  /** The upgrade the two files allow: min <= old < max <= new. */
  ghost predicate Upgrades(platform: string, before: Installed, after: Installed) {
    && before.Some? && after.Some?
    && var o, n := ReadVersionFile(before.value), ReadVersionFile(after.value);
    && o.Some? && n.Some? && ValidAttributes(o.value, platform) && ValidAttributes(n.value, platform)
    && var v := o.value.version.value;
    && LessEq(n.value.upgradeMin.value, v)
    && Less(v, n.value.upgradeMax.value)
    && LessEq(n.value.upgradeMax.value, n.value.version.value)
  }

  /** The four comparisons of the code, read together. */
  lemma AcceptOrder(v: Version, lo: Version, hi: Version, n: Version)
    ensures LessEq(hi, n) && !GreaterEq(v, n) && !(Less(v, lo) || LessEq(hi, v))
       <==> LessEq(lo, v) && Less(v, hi) && LessEq(hi, n)
  {
    TotalOrder(v, hi, n);
  }

  /** The version checks pass exactly for signed files with min <= old < max <= new. */
  lemma {:induction false} ChecksPassIff(platform: string, installed: Installed, served: Option<Doc>, signed: bool)
    ensures CheckVersions(platform, installed, served, signed) == Exit(OK)
        <==> signed && Upgrades(platform, installed, served)
  {
    if installed.Some? && served.Some? {
      var o, n := ReadVersionFile(installed.value), ReadVersionFile(served.value);
      if o.Some? && n.Some? && ValidAttributes(o.value, platform) && ValidAttributes(n.value, platform) {
        AcceptOrder(o.value.version.value, n.value.upgradeMin.value, n.value.upgradeMax.value, n.value.version.value);
      }
    }
  }

  /** Both files are there, signed and readable, with all attributes and a range that ends below the new
      version. */
  ghost predicate Comparable(platform: string, installed: Installed, served: Option<Doc>, signed: bool) {
    && installed.Some? && served.Some? && signed
    && var o, n := ReadVersionFile(installed.value), ReadVersionFile(served.value);
    && o.Some? && n.Some? && ValidAttributes(o.value, platform) && ValidAttributes(n.value, platform)
    && LessEq(n.value.upgradeMax.value, n.value.version.value)
  }

  /** Where the old version lies decides between the three codes of comparable files. */
  lemma {:induction false} ChecksByVersion(platform: string, installed: Installed, served: Option<Doc>, signed: bool)
    requires Comparable(platform, installed, served, signed)
    ensures var n := ReadVersionFile(served.value).value;
            var v, checked := VersionOf(installed).value, CheckVersions(platform, installed, served, signed);
            && (checked == Exit(WARN_VERSION_SAME) <==> LessEq(n.version.value, v))
            && (checked == Exit(OK) <==> LessEq(n.upgradeMin.value, v) && Less(v, n.upgradeMax.value))
            && (checked == Exit(WARN_OLD_VERSION_NOT_IN_RANGE) <==>
                Less(v, n.version.value) && (Less(v, n.upgradeMin.value) || LessEq(n.upgradeMax.value, v)))
  {
    var v, n := VersionOf(installed).value, ReadVersionFile(served.value).value;
    AcceptOrder(v, n.upgradeMin.value, n.upgradeMax.value, n.version.value);
    TotalOrder(v, n.upgradeMax.value, n.version.value);
    TotalOrder(v, n.version.value, n.upgradeMin.value);
  }

  /** All other files get a code that says which file is at fault, or raise. */
  lemma ChecksByFile(platform: string, installed: Installed, served: Option<Doc>, signed: bool)
    requires !Comparable(platform, installed, served, signed)
    ensures var checked := CheckVersions(platform, installed, served, signed);
            && (checked == Exit(ERR_OLD_VERSION_MISSING) <==> installed.None?)
            && (checked == Exit(ERR_NEW_VERSION_MISSING) <==> installed.Some? && served.None?)
            && (checked == Exit(ERR_BAD_SIGNATURE) <==> installed.Some? && served.Some? && !signed)
            && (checked in {Raised, Exit(ERR_PARSING_OLD_VERSION), Exit(ERR_PARSING_NEW_VERSION)} <==>
                installed.Some? && served.Some? && signed)
            && (checked == Raised ==>
                ReadVersionFile(installed.value).None? || ReadVersionFile(served.value).None?)
            && (checked == Exit(ERR_PARSING_OLD_VERSION) ==>
                !ValidAttributes(ReadVersionFile(installed.value).value, platform))
            && (checked == Exit(ERR_PARSING_NEW_VERSION) ==>
                ValidAttributes(ReadVersionFile(installed.value).value, platform))
  {
  }

  /** The package that a readable version.json names. */
  function PackageFile(doc: Option<Doc>): string {
    if doc.None? then ""
    else
      var f := ReadVersionFile(doc.value);
      if f.Some? && NamesPackage(f.value) then f.value.packageFile.value.text else ""
  }

  /** Its download lands on version.json. */
  predicate NamesVersionJson(doc: Option<Doc>) {
    BaseName(PackageFile(doc)) == VERSION_JSON
  }

  /** The file that a successful attempt copies over the installed version.json. */
  function InstalledBy(srv: Server): Installed {
    if NamesVersionJson(srv.doc) then Some(srv.package) else srv.doc
  }

  /** Everything that must hold of the package. */
  ghost predicate PackageGood(f: VersionFile, srv: Server) {
    && NamesPackage(f)
    && srv.packageDownload == OK && srv.packageSigDownload == OK
    && var file := f.packageFile.value.text;
    && SingleName(BaseName(file)) && ('/' in file ==> srv.packageElsewhere)
    && f.checksum.value == Str(srv.packageChecksum) && srv.packageSigned
    && srv.unpack == OK && srv.install == OK
  }

  /** Everything that must hold for an attempt to install a release. */
  ghost predicate Installable(platform: string, installed: Installed, url: string, srv: Server) {
    && IsHttps(url + "/version.json")
    && srv.jsonDownload == OK && srv.jsonSigDownload == OK && srv.docSigned
    && Upgrades(platform, installed, srv.doc)
    && PackageGood(ReadVersionFile(srv.doc.value).value, srv)
  }

  /** Whether a location is https does not depend on the file asked for. */
  lemma HttpsForAll(url: string, file: string)
    requires IsHttps(url + "/version.json")
    ensures IsHttps(url + "/" + file)
  {
    var s, t := Lower(url + "/version.json"), Lower(url + "/" + file);
    var p := "https://";
    assert s[..8] == p;
    if |url| < 7 {
      NotHttpsYet(url, s);
    } else {
      assert t[..8] == s[..8];
    }
  }

  lemma NotHttpsYet(url: string, s: string)
    requires |url| < 7 && s == Lower(url + "/version.json")
    ensures s[..8] != "https://"
  {
    var p := "https://";
    assert s[|url|] == '/' && s[|url| + 1] == 'v';
    assert |url| < 6 ==> p[|url|] != '/';
    assert |url| == 6 ==> s[7] == 'v' && p[7] == '/';
    assert s[..8][|url|] == s[|url|] && s[..8][7] == s[7];
  }

  /** A download from an https location works exactly when it is answered so and has a file name. */
  lemma DownloadOk(url: string, file: string, answer: ExitCode)
    requires IsHttps(url + "/version.json")
    ensures DownloadFile(url + "/" + file, answer) == OK <==> answer == OK && SingleName(BaseName(file))
  {
    HttpsForAll(url, file);
    BaseNameTail(url, file);
  }

  lemma {:induction false} LastSlash(s: string) returns (a: string, b: string)
    requires '/' in s
    ensures s == a + "/" + b && '/' !in b
  {
    var init, last := s[..|s| - 1], s[|s| - 1];
    if last == '/' {
      a, b := init, "";
    } else {
      assert s == init + [last];
      a, b := LastSlash(init);
      b := b + [last];
    }
  }

  /** The signature of anything has a file name. */
  lemma SignatureName(file: string)
    ensures SingleName(BaseName(file + ".sig"))
  {
    if '/' in file {
      var a, b := LastSlash(file);
      assert file + ".sig" == a + "/" + (b + ".sig");
      BaseNameTail(a, b + ".sig");
      BaseNamePlain(b + ".sig");
    } else {
      BaseNamePlain(file + ".sig");
    }
  }

  lemma SignatureOk(url: string, file: string, answer: ExitCode)
    requires IsHttps(url + "/version.json")
    ensures DownloadFile(url + "/" + file + ".sig", answer) == OK <==> answer == OK
  {
    DownloadOk(url, file + ".sig", answer);
    SignatureName(file);
    assert url + "/" + (file + ".sig") == url + "/" + file + ".sig";
  }

  lemma VersionOk(url: string, answer: ExitCode)
    ensures DownloadFile(url + "/version.json", answer) == OK <==> IsHttps(url + "/version.json") && answer == OK
  {
    if IsHttps(url + "/version.json") {
      VersionUrls(url);
      DownloadOk(url, VERSION_JSON, answer);
      BaseNamePlain(VERSION_JSON);
    }
  }

  lemma VersionSigOk(url: string, answer: ExitCode)
    requires IsHttps(url + "/version.json")
    ensures DownloadFile(url + "/version.json.sig", answer) == OK <==> answer == OK
  {
    VersionUrls(url);
    SignatureOk(url, VERSION_JSON, answer);
  }

  /** The two downloads that open an attempt. */
  lemma OpeningOk(url: string, srv: Server)
    ensures DownloadFile(url + "/version.json", srv.jsonDownload) == OK
         && DownloadFile(url + "/version.json.sig", srv.jsonSigDownload) == OK
       <==> IsHttps(url + "/version.json") && srv.jsonDownload == OK && srv.jsonSigDownload == OK
  {
    VersionOk(url, srv.jsonDownload);
    if IsHttps(url + "/version.json") {
      VersionSigOk(url, srv.jsonSigDownload);
    }
  }

  /** The package part succeeds exactly for a good package, which is then in the directory. */
  lemma PackageFetched(url: string, f: VersionFile, area: Area, srv: Server)
    requires NamesPackage(f) && IsHttps(url + "/version.json")
    ensures var r := FetchAndInstall(url, f, area, srv);
            && (r.0 == OK <==> PackageGood(f, srv))
            && (r.0 == OK ==> r.1 == area[BaseName(f.packageFile.value.text) := srv.package])
  {
    var file := f.packageFile.value.text;
    DownloadOk(url, file, srv.packageDownload);
    SignatureOk(url, file, srv.packageSigDownload);
    BaseNameTail(url, file);
    if '/' !in file {
      BaseNamePlain(file);
    }
  }

  /** Before that: nothing is asked for over http, and version.json comes before its signature. */
  lemma OpeningCodes(platform: string, installed: Installed, url: string, srv: Server)
    requires !IsHttps(url + "/version.json") || srv.jsonDownload != OK || srv.jsonSigDownload != OK
    ensures UpgradeOnce(platform, installed, url, srv)
         == (Exit(if !IsHttps(url + "/version.json") then ERR_BAD_SERVER_URL
                  else if srv.jsonDownload != OK then srv.jsonDownload
                  else srv.jsonSigDownload), installed)
  {
    if IsHttps(url + "/version.json") {
      VersionUrls(url);
      VersionOk(url, srv.jsonDownload);
      SigDownload(url, VERSION_JSON, srv.jsonSigDownload);
    }
  }

  /** The attempt, once version.json and its signature are there. */
  lemma StagesOk(platform: string, installed: Installed, url: string, srv: Server)
    requires DownloadFile(url + "/version.json", srv.jsonDownload) == OK
    requires DownloadFile(url + "/version.json.sig", srv.jsonSigDownload) == OK
    ensures var r, checked := UpgradeOnce(platform, installed, url, srv),
                              CheckVersions(platform, installed, srv.doc, srv.docSigned);
            if checked != Exit(OK) then r == (checked, installed)
            else if !NamesPackage(ReadVersionFile(srv.doc.value).value) then r == (Raised, installed)
            else
              var got := FetchAndInstall(url, ReadVersionFile(srv.doc.value).value, FirstDownload(url, srv), srv);
              r == if got.0 != OK then (Exit(got.0), installed) else (Exit(OK), InArea(got.1, VERSION_JSON))
  {
    FreshIsServed(url, srv);
  }

  lemma NotOpened(platform: string, installed: Installed, url: string, srv: Server)
    requires DownloadFile(url + "/version.json", srv.jsonDownload) != OK
          || DownloadFile(url + "/version.json.sig", srv.jsonSigDownload) != OK
    ensures var r := UpgradeOnce(platform, installed, url, srv);
            r.0 != Raised && r.0 != Exit(OK) && r.1 == installed
  {
  }

  /** How an attempt ends: an https location whose release is signed, is an allowed upgrade and has a
      good package installs it; nothing else changes anything. */
  lemma {:induction false} AttemptOkIff(platform: string, installed: Installed, url: string, srv: Server)
    ensures UpgradeOnce(platform, installed, url, srv).0 == Exit(OK) <==> Installable(platform, installed, url, srv)
    ensures UpgradeOnce(platform, installed, url, srv).1
         == if Installable(platform, installed, url, srv) then InstalledBy(srv) else installed
  {
    OpeningOk(url, srv);
    ChecksPassIff(platform, installed, srv.doc, srv.docSigned);
    if IsHttps(url + "/version.json") && srv.jsonDownload == OK && srv.jsonSigDownload == OK {
      StagesOk(platform, installed, url, srv);
      if CheckVersions(platform, installed, srv.doc, srv.docSigned) == Exit(OK) {
        var f, area := ReadVersionFile(srv.doc.value).value, FirstDownload(url, srv);
        if NamesPackage(f) {
          PackageFetched(url, f, area, srv);
          FreshIsServed(url, srv);
          LandsOn(area, f.packageFile.value.text, srv);
        }
      }
    } else {
      NotOpened(platform, installed, url, srv);
    }
  }

  /** What the directory holds as version.json after the package has come. */
  lemma LandsOn(area: Area, file: string, srv: Server)
    requires InArea(area, VERSION_JSON) == srv.doc && PackageFile(srv.doc) == file
    ensures InArea(area[BaseName(file) := srv.package], VERSION_JSON) == InstalledBy(srv)
  {
  }

  /** The first stage that fails gives the code. */
  lemma {:induction false} PackageCodes(url: string, f: VersionFile, area: Area, srv: Server)
    requires NamesPackage(f) && IsHttps(url + "/version.json")
    ensures var file := f.packageFile.value.text;
            FetchAndInstall(url, f, area, srv).0 ==
            if srv.packageDownload != OK then srv.packageDownload
            else if !SingleName(BaseName(file)) then ERR_DOWNLOAD_FAILED
            else if srv.packageSigDownload != OK then srv.packageSigDownload
            else if '/' in file && !srv.packageElsewhere then ERR_PACKAGE_FILE_MISSING
            else if f.checksum.value != Str(srv.packageChecksum) then ERR_BAD_CHECKSUM
            else if !srv.packageSigned then ERR_BAD_SIGNATURE
            else if srv.unpack != OK then srv.unpack
            else srv.install
  {
    var file := f.packageFile.value.text;
    HttpsForAll(url, file);
    SigDownload(url, file, srv.packageSigDownload);
    BaseNameTail(url, file);
    if '/' !in file {
      BaseNamePlain(file);
    }
  }

  lemma SigDownload(url: string, file: string, answer: ExitCode)
    requires IsHttps(url + "/version.json")
    ensures DownloadFile(url + "/" + file + ".sig", answer) == answer
  {
    SignatureOk(url, file, OK);
  }

  /** A package path that ends in no file name is never installed. */
  lemma {:induction false} NoFileName(platform: string, installed: Installed, url: string, srv: Server, dir: string,
      last: string)
    requires last == "" || last == "." || last == ".."
    requires PackageFile(srv.doc) == last || PackageFile(srv.doc) == dir + "/" + last
    ensures UpgradeOnce(platform, installed, url, srv).0 != Exit(OK)
  {
    hide UpgradeOnce, IsHttps, BaseName, ReadVersionFile, ValidAttributes, LessEq, Less;
    AttemptOkIff(platform, installed, url, srv);
    BaseNamePlain(last);
    BaseNameTail(dir, last);
  }

  /** The version.json allows the upgrade but does not name its package by a string. */
  ghost predicate OddPackage(platform: string, installed: Installed, doc: Option<Doc>) {
    Upgrades(platform, installed, doc) && ReadVersionFile(doc.value).value.packageFile.value.Other?
  }

  /** An attempt ends with an exception exactly when both files were fetched over https and are there,
      the served one is signed, and reading one of the two raises, or the served one passes all checks
      and names its package by no string. */
  lemma {:induction false} AttemptRaisesIff(platform: string, installed: Installed, url: string, srv: Server)
    ensures UpgradeOnce(platform, installed, url, srv).0 == Raised <==>
            && IsHttps(url + "/version.json") && srv.jsonDownload == OK && srv.jsonSigDownload == OK
            && installed.Some? && srv.doc.Some? && srv.docSigned
            && (ReadVersionFile(installed.value).None? || ReadVersionFile(srv.doc.value).None?
                || OddPackage(platform, installed, srv.doc))
  {
    OpeningOk(url, srv);
    if IsHttps(url + "/version.json") && srv.jsonDownload == OK && srv.jsonSigDownload == OK {
      StagesOk(platform, installed, url, srv);
      ChecksPassIff(platform, installed, srv.doc, srv.docSigned);
    } else {
      NotOpened(platform, installed, url, srv);
    }
  }

  /** Only OK changes the installed version.json, only over https, only for a served allowed upgrade;
      what is installed is the served file unless the package was stored over it. */
  lemma {:induction false} AttemptSafe(platform: string, installed: Installed, url: string, srv: Server)
    ensures var r := UpgradeOnce(platform, installed, url, srv);
            if r.0 == Exit(OK)
            then Upgrades(platform, installed, srv.doc) && IsHttps(url + "/version.json") && r.1 == InstalledBy(srv)
            else r.1 == installed
  {
    AttemptOkIff(platform, installed, url, srv);
  }

  /** Every OK attempt on a served release installs that release, whatever its package holds,
      exactly when the package is not stored as version.json. */
  lemma {:induction false} ServedInstalledIff(platform: string, installed: Installed, url: string, srv: Server)
    requires Installable(platform, installed, url, srv)
    ensures (forall package :: UpgradeOnce(platform, installed, url, srv.(package := package)).1 == srv.doc)
       <==> !NamesVersionJson(srv.doc)
  {
    forall package ensures UpgradeOnce(platform, installed, url, srv.(package := package)).1
                        == InstalledBy(srv.(package := package))
    {
      AttemptOkIff(platform, installed, url, srv.(package := package));
    }
    if NamesVersionJson(srv.doc) {
      assert UpgradeOnce(platform, installed, url, srv.(package := Corrupt)).1 == Some(Corrupt);
    }
  }

  /** An upgrade never lowers or keeps the version. */
  lemma {:induction false} UpgradeRaises(platform: string, before: Installed, after: Installed)
    requires Upgrades(platform, before, after)
    ensures VersionOf(before).Some? && VersionOf(after).Some? && Less(VersionOf(before).value, VersionOf(after).value)
  {
    var n := ReadVersionFile(after.value).value;
    TotalOrder(VersionOf(before).value, n.upgradeMax.value, n.version.value);
  }

  // ---------- run() ----------

  datatype Config = Config(platform: string, orgId: string, sysId: string, hostname: string, serverBase: string)

  /** What one run() meets: the answer to its k-th attempt, and the clock at each base URL. */
  datatype World = World(serve: (nat, string) -> Server, offhour: nat -> bool)

  function BaseCandidates(cfg: Config, base: string, offhour: bool): seq<string> {
    [base + "/singles/" + cfg.orgId + "/" + cfg.sysId + "/" + cfg.hostname,
     base + "/singles/" + cfg.orgId + "/" + cfg.sysId + "/" + cfg.platform] +
    (if offhour then [base + "/offhour/" + cfg.platform] else []) +
    [base + "/latest/" + cfg.platform]
  }

  /** The locations from the i-th base on, in the order they are tried. */
  function Candidates(cfg: Config, bases: seq<string>, i: nat, offhour: nat -> bool): seq<string>
    decreases |bases| - i
  {
    if i >= |bases| then []
    else BaseCandidates(cfg, bases[i], offhour(i)) + Candidates(cfg, bases, i + 1, offhour)
  }

  function AllCandidates(cfg: Config, w: World): seq<string> {
    Candidates(cfg, SplitOn(cfg.serverBase, ","), 0, w.offhour)
  }

  datatype Attempt = Attempt(url: string, outcome: Outcome, before: Installed, after: Installed)

  function Try(cfg: Config, installed: Installed, k: nat, url: string, w: World): Attempt {
    var r := UpgradeOnce(cfg.platform, installed, url, w.serve(k, url));
    Attempt(url, r.0, installed, r.1)
  }

  predicate Failed(a: Attempt) {
    a.outcome.Exit? && a.outcome.code != OK
  }

  /** The attempts of one run, by number and location, from an unchanged installation. */
  type Trier = (nat, string) -> Attempt

  function Trying(cfg: Config, installed: Installed, w: World): Trier {
    (k: nat, url: string) => Try(cfg, installed, k, url, w)
  }

  /** First success over the candidates: try each in turn until one does not fail. */
  function TryAll(t: Trier, k: nat, urls: seq<string>): seq<Attempt>
    decreases |urls|
  {
    if urls == [] then []
    else if Failed(t(k, urls[0])) then [t(k, urls[0])] + TryAll(t, k + 1, urls[1..])
    else [t(k, urls[0])]
  }

  lemma TryNone(t: Trier, k: nat)
    ensures TryAll(t, k, []) == []
  {
  }

  lemma TryStep(t: Trier, k: nat, url: string, rem: seq<string>)
    ensures TryAll(t, k, [url] + rem)
         == if Failed(t(k, url)) then [t(k, url)] + TryAll(t, k + 1, rem) else [t(k, url)]
  {
    assert ([url] + rem)[1..] == rem;
  }

  lemma TotalStep(t: Trier, total: seq<Attempt>, attempts: seq<Attempt>, url: string, rem: seq<string>)
    requires total == attempts + TryAll(t, |attempts|, [url] + rem)
    ensures var a := t(|attempts|, url);
            total == if Failed(a) then (attempts + [a]) + TryAll(t, |attempts + [a]|, rem) else attempts + [a]
  {
    TryStep(t, |attempts|, url, rem);
    hide TryAll;
    OneMore(attempts, t(|attempts|, url), TryAll(t, |attempts| + 1, rem));
  }

  lemma OneMore(attempts: seq<Attempt>, a: Attempt, more: seq<Attempt>)
    ensures attempts + ([a] + more) == (attempts + [a]) + more
  {
  }

  /** What an execution of run() may look like, said of its attempts only. */
  ghost predicate FirstSuccess(t: Trier, k: nat, urls: seq<string>, attempts: seq<Attempt>) {
    && |attempts| <= |urls|
    && (forall i :: 0 <= i < |attempts| ==> attempts[i] == t(k + i, urls[i]))
    && (forall i :: 0 <= i < |attempts| - 1 ==> Failed(attempts[i]))
    && (|attempts| < |urls| ==> attempts != [] && !Failed(attempts[|attempts| - 1]))
  }

  lemma {:induction false} TryAllIsFirstSuccess(t: Trier, k: nat, urls: seq<string>)
    ensures FirstSuccess(t, k, urls, TryAll(t, k, urls))
    decreases |urls|
  {
    if urls != [] {
      TryAllIsFirstSuccess(t, k + 1, urls[1..]);
      var all, more := TryAll(t, k, urls), TryAll(t, k + 1, urls[1..]);
      if Failed(t(k, urls[0])) {
        forall i | 0 < i < |all| ensures all[i] == more[i - 1] && all[i] == t(k + i, urls[i]) {
          assert (k + 1) + (i - 1) == k + i;
          assert urls[1..][i - 1] == urls[i];
        }
      }
    }
  }

  function ResultOf(attempts: seq<Attempt>): Outcome {
    if attempts == [] || Failed(attempts[|attempts| - 1]) then Exit(ERR_DOWNLOAD_FAILED)
    else attempts[|attempts| - 1].outcome
  }

  function AfterOf(attempts: seq<Attempt>, installed: Installed): Installed {
    if attempts == [] then installed else attempts[|attempts| - 1].after
  }

  function Attempts(cfg: Config, installed: Installed, w: World): seq<Attempt> {
    TryAll(Trying(cfg, installed, w), 0, AllCandidates(cfg, w))
  }

  /** run() as a function: its result and the installed version.json afterwards. */
  function Run(cfg: Config, installed: Installed, w: World): (Outcome, Installed) {
    var attempts := Attempts(cfg, installed, w);
    (ResultOf(attempts), AfterOf(attempts, installed))
  }

  /** The document is one that some location served during the run. */
  ghost predicate Served(w: World, doc: Option<Doc>) {
    exists k: nat, url :: w.serve(k, url).doc == doc
  }

  /** What is installed came from this location, which served an allowed upgrade. */
  ghost predicate InstalledFrom(cfg: Config, installed: Installed, w: World, url: string, after: Installed) {
    exists k: nat :: Upgrades(cfg.platform, installed, w.serve(k, url).doc) && after == InstalledBy(w.serve(k, url))
  }

  /** An attempt changes the installation only on OK, over https, for a served and allowed upgrade. */
  ghost predicate Safe(cfg: Config, installed: Installed, w: World, a: Attempt) {
    if a.outcome == Exit(OK)
    then InstalledFrom(cfg, installed, w, a.url, a.after) && IsHttps(a.url + "/version.json")
    else a.after == installed
  }

  lemma TrySafe(cfg: Config, installed: Installed, k: nat, url: string, w: World)
    ensures Safe(cfg, installed, w, Trying(cfg, installed, w)(k, url))
    ensures Trying(cfg, installed, w)(k, url) == Try(cfg, installed, k, url, w)
  {
    AttemptSafe(cfg.platform, installed, url, w.serve(k, url));
  }

  lemma TryKeeps(cfg: Config, installed: Installed, k: nat, url: string, w: World)
    ensures var a := Trying(cfg, installed, w)(k, url);
            a.outcome != Exit(OK) ==> a.after == installed
  {
    TrySafe(cfg, installed, k, url, w);
  }

  lemma {:induction false} AttemptsSafe(cfg: Config, installed: Installed, w: World)
    ensures forall a :: a in Attempts(cfg, installed, w) ==> Safe(cfg, installed, w, a)
    ensures FirstSuccess(Trying(cfg, installed, w), 0, AllCandidates(cfg, w), Attempts(cfg, installed, w))
  {
    var urls, attempts := AllCandidates(cfg, w), Attempts(cfg, installed, w);
    TryAllIsFirstSuccess(Trying(cfg, installed, w), 0, urls);
    forall a | a in attempts ensures Safe(cfg, installed, w, a) {
      var i :| 0 <= i < |attempts| && attempts[i] == a;
      TrySafe(cfg, installed, 0 + i, urls[i], w);
    }
  }

  /** Only a successful attempt may change what is installed. */
  ghost predicate FailuresKeep(attempts: seq<Attempt>, installed: Installed) {
    forall a :: a in attempts && a.outcome != Exit(OK) ==> a.after == installed
  }

  lemma AttemptsKeep(cfg: Config, installed: Installed, w: World)
    ensures FailuresKeep(Attempts(cfg, installed, w), installed)
  {
    AttemptsSafe(cfg, installed, w);
  }

  /** What first success means for the result. */
  ghost predicate Decided(urls: seq<string>, attempts: seq<Attempt>, result: Outcome, installed: Installed,
      after: Installed) {
    && (result == Exit(OK) <==> exists a :: a in attempts && a.outcome == Exit(OK))
    && (result == Exit(OK) ==> attempts != [] && after == attempts[|attempts| - 1].after)
    && (result != Exit(OK) ==> after == installed)
    && (result == Exit(ERR_DOWNLOAD_FAILED) <==> |attempts| == |urls| && forall a :: a in attempts ==> Failed(a))
    && (result.Exit? ==> result.code == OK || result.code == ERR_DOWNLOAD_FAILED)
    && (result == Raised <==> exists a :: a in attempts && a.outcome == Raised)
    && (result == Raised ==> attempts[|attempts| - 1].outcome == Raised)
  }

  lemma FirstSuccessDecides(t: Trier, k: nat, urls: seq<string>, attempts: seq<Attempt>, installed: Installed)
    requires FirstSuccess(t, k, urls, attempts) && FailuresKeep(attempts, installed)
    ensures Decided(urls, attempts, ResultOf(attempts), installed, AfterOf(attempts, installed))
  {
    if attempts != [] {
      var last := attempts[|attempts| - 1];
      assert last in attempts;
      forall a | a in attempts ensures a == last || Failed(a) {
        var i :| 0 <= i < |attempts| && attempts[i] == a;
      }
    }
  }

  /** run() refines first success: the attempts are a prefix of the candidates, all but the last
      fail, a failure changes nothing, OK is returned exactly when some attempt succeeds, and
      ERR_DOWNLOAD_FAILED exactly when every candidate was tried and failed. */
  lemma {:induction false} RunRefinesFirstSuccess(cfg: Config, installed: Installed, w: World)
    ensures FirstSuccess(Trying(cfg, installed, w), 0, AllCandidates(cfg, w), Attempts(cfg, installed, w))
    ensures FailuresKeep(Attempts(cfg, installed, w), installed)
    ensures Decided(AllCandidates(cfg, w), Attempts(cfg, installed, w),
                    Run(cfg, installed, w).0, installed, Run(cfg, installed, w).1)
  {
    TryAllIsFirstSuccess(Trying(cfg, installed, w), 0, AllCandidates(cfg, w));
    AttemptsKeep(cfg, installed, w);
    FirstSuccessDecides(Trying(cfg, installed, w), 0, AllCandidates(cfg, w), Attempts(cfg, installed, w), installed);
  }

  lemma LastSafe(cfg: Config, installed: Installed, w: World)
    ensures var attempts := Attempts(cfg, installed, w);
            attempts != [] ==> Safe(cfg, installed, w, attempts[|attempts| - 1])
  {
    AttemptsSafe(cfg, installed, w);
    var attempts := Attempts(cfg, installed, w);
    if attempts != [] {
      assert attempts[|attempts| - 1] in attempts;
    }
  }

  /** After run() the installed version.json is what a location left that served an allowed upgrade
      over https, or the old one. */
  lemma {:induction false} RunSafe(cfg: Config, installed: Installed, w: World)
    ensures var r := Run(cfg, installed, w);
            if r.0 == Exit(OK)
            then exists url :: IsHttps(url + "/version.json") && InstalledFrom(cfg, installed, w, url, r.1)
            else r.1 == installed
  {
    LastSafe(cfg, installed, w);
  }

  /** No served release has its package stored over its version.json. */
  ghost predicate KeepsDocuments(w: World) {
    forall k: nat, url :: !NamesVersionJson(w.serve(k, url).doc)
  }

  /** Then what is installed after run() is itself an allowed upgrade that was served. */
  lemma {:induction false} RunInstallsServed(cfg: Config, installed: Installed, w: World)
    requires KeepsDocuments(w)
    ensures var r := Run(cfg, installed, w);
            if r.0 == Exit(OK) then Upgrades(cfg.platform, installed, r.1) && Served(w, r.1) else r.1 == installed
  {
    RunSafe(cfg, installed, w);
    var r := Run(cfg, installed, w);
    if r.0 == Exit(OK) {
      var url :| InstalledFrom(cfg, installed, w, url, r.1);
      FromIsServed(cfg, installed, w, url, r.1);
    }
  }

  lemma FromIsServed(cfg: Config, installed: Installed, w: World, url: string, after: Installed)
    requires KeepsDocuments(w) && InstalledFrom(cfg, installed, w, url, after)
    ensures Upgrades(cfg.platform, installed, after) && Served(w, after)
  {
    var k: nat :| Upgrades(cfg.platform, installed, w.serve(k, url).doc) && after == InstalledBy(w.serve(k, url));
    assert !NamesVersionJson(w.serve(k, url).doc);
  }

  // ---------- where a run stops ----------

  /** The k-th location is the first that does not fail. */
  ghost predicate StopsAt(t: Trier, urls: seq<string>, k: nat) {
    k < |urls| && !Failed(t(k, urls[k])) && forall i: nat :: i < k ==> Failed(t(i, urls[i]))
  }

  /** A run takes its result from the first location that does not fail, whichever follow. */
  lemma {:induction false} RunStops(cfg: Config, installed: Installed, w: World, k: nat)
    requires StopsAt(Trying(cfg, installed, w), AllCandidates(cfg, w), k)
    ensures var a := Trying(cfg, installed, w)(k, AllCandidates(cfg, w)[k]);
            Run(cfg, installed, w) == (a.outcome, a.after) && |Attempts(cfg, installed, w)| == k + 1
  {
    var t, urls, attempts := Trying(cfg, installed, w), AllCandidates(cfg, w), Attempts(cfg, installed, w);
    TryAllIsFirstSuccess(t, 0, urls);
    StopLength(t, urls, attempts, k);
    assert attempts[k] == t(0 + k, urls[k]);
  }

  lemma StopLength(t: Trier, urls: seq<string>, attempts: seq<Attempt>, k: nat)
    requires FirstSuccess(t, 0, urls, attempts) && StopsAt(t, urls, k)
    ensures |attempts| == k + 1
  {
    assert forall i: nat :: i < |attempts| ==> attempts[i] == t(0 + i, urls[i]);
  }

  /** The location makes an attempt end with the exception. */
  ghost predicate RaisesAt(cfg: Config, installed: Installed, w: World, k: nat, url: string) {
    UpgradeOnce(cfg.platform, installed, url, w.serve(k, url)).0 == Raised
  }

  lemma StopOfRun(cfg: Config, installed: Installed, w: World)
    requires Run(cfg, installed, w).0 == Raised
    ensures exists k: nat :: StopsAt(Trying(cfg, installed, w), AllCandidates(cfg, w), k)
                          && RaisesAt(cfg, installed, w, k, AllCandidates(cfg, w)[k])
  {
    var t, urls, attempts := Trying(cfg, installed, w), AllCandidates(cfg, w), Attempts(cfg, installed, w);
    TryAllIsFirstSuccess(t, 0, urls);
    LastStops(t, urls, attempts);
  }

  lemma LastStops(t: Trier, urls: seq<string>, attempts: seq<Attempt>)
    requires FirstSuccess(t, 0, urls, attempts) && attempts != [] && !Failed(attempts[|attempts| - 1])
    ensures StopsAt(t, urls, |attempts| - 1)
    ensures attempts[|attempts| - 1] == t(|attempts| - 1, urls[|attempts| - 1])
  {
    assert forall i: nat :: i < |attempts| ==> attempts[i] == t(0 + i, urls[i]);
  }

  /** run() ends with the exception exactly when some location makes its attempt end so and all
      earlier ones fail; whatever the later ones serve is then never looked at. */
  lemma {:induction false} RunRaisesIff(cfg: Config, installed: Installed, w: World)
    ensures Run(cfg, installed, w).0 == Raised <==>
            exists k: nat :: StopsAt(Trying(cfg, installed, w), AllCandidates(cfg, w), k)
                          && RaisesAt(cfg, installed, w, k, AllCandidates(cfg, w)[k])
  {
    if Run(cfg, installed, w).0 == Raised {
      StopOfRun(cfg, installed, w);
    }
    forall k: nat | StopsAt(Trying(cfg, installed, w), AllCandidates(cfg, w), k)
                 && RaisesAt(cfg, installed, w, k, AllCandidates(cfg, w)[k])
      ensures Run(cfg, installed, w).0 == Raised
    {
      RunStops(cfg, installed, w, k);
    }
  }

  // ---------- which locations, in which order ----------

  /** How many locations are tried before the i-th base: four for a base reached off hours, else three. */
  function Before(offhour: nat -> bool, i: nat): nat {
    if i == 0 then 0 else Before(offhour, i - 1) + if offhour(i - 1) then 4 else 3
  }

  lemma {:induction false} CandidatesFrom(cfg: Config, bases: seq<string>, i: nat, j: nat, offhour: nat -> bool)
    requires i <= j <= |bases|
    ensures Before(offhour, j) >= Before(offhour, i)
    ensures var all, n := Candidates(cfg, bases, i, offhour), Before(offhour, j) - Before(offhour, i);
            n <= |all| && all[n..] == Candidates(cfg, bases, j, offhour)
    decreases j - i
  {
    if i < j {
      CandidatesFrom(cfg, bases, i + 1, j, offhour);
      DropMore(BaseCandidates(cfg, bases[i], offhour(i)), Candidates(cfg, bases, i + 1, offhour),
               Before(offhour, j) - Before(offhour, i + 1));
    }
  }

  lemma DropMore<T>(a: seq<T>, b: seq<T>, n: nat)
    requires n <= |b|
    ensures (a + b)[|a| + n..] == b[n..]
  {
  }

  lemma OwnPart(cfg: Config, bases: seq<string>, i: nat, offhour: nat -> bool, j: nat)
    requires i < |bases| && j < |BaseCandidates(cfg, bases[i], offhour(i))|
    ensures var own, n, all := BaseCandidates(cfg, bases[i], offhour(i)), Before(offhour, i), Candidates(cfg, bases, 0,
                offhour);
            n + |own| <= |all| && all[n + j] == own[j]
  {
    CandidatesFrom(cfg, bases, 0, i, offhour);
    SliceAt(Candidates(cfg, bases, 0, offhour), BaseCandidates(cfg, bases[i], offhour(i)),
            Candidates(cfg, bases, i + 1, offhour), Before(offhour, i), j);
  }

  lemma SliceAt<T>(all: seq<T>, part: seq<T>, more: seq<T>, n: nat, j: nat)
    requires n <= |all| && all[n..] == part + more && j < |part|
    ensures n + |part| <= |all| && all[n + j] == part[j]
  {
    assert all[n + j] == all[n..][j];
  }

  /** At each base URL in turn: the host's own location, then the platform's of the same system, then the
      off-hour one if it is off hours when that base is reached, then the latest one. */
  lemma {:induction false} LocationsInOrder(cfg: Config, w: World, i: nat)
    requires i < |SplitOn(cfg.serverBase, ",")|
    ensures var base, k, urls := SplitOn(cfg.serverBase, ",")[i], Before(w.offhour, i), AllCandidates(cfg, w);
            && k + (if w.offhour(i) then 4 else 3) <= |urls|
            && urls[k] == base + "/singles/" + cfg.orgId + "/" + cfg.sysId + "/" + cfg.hostname
            && urls[k + 1] == base + "/singles/" + cfg.orgId + "/" + cfg.sysId + "/" + cfg.platform
            && (w.offhour(i) ==> urls[k + 2] == base + "/offhour/" + cfg.platform)
            && urls[k + if w.offhour(i) then 3 else 2] == base + "/latest/" + cfg.platform
  {
    hide SplitOn, Candidates, Before;
    var bases := SplitOn(cfg.serverBase, ",");
    OwnPart(cfg, bases, i, w.offhour, 0);
    OwnPart(cfg, bases, i, w.offhour, 1);
    OwnPart(cfg, bases, i, w.offhour, 2);
    OwnPart(cfg, bases, i, w.offhour, if w.offhour(i) then 3 else 2);
  }

  /** Nothing is tried besides. */
  lemma LocationCount(cfg: Config, w: World)
    ensures |AllCandidates(cfg, w)| == Before(w.offhour, |SplitOn(cfg.serverBase, ",")|)
  {
    CandidatesFrom(cfg, SplitOn(cfg.serverBase, ","), 0, |SplitOn(cfg.serverBase, ",")|, w.offhour);
  }

  /** The attempt at the k-th location ends with an exit code other than OK. */
  ghost predicate FailsAt(cfg: Config, installed: Installed, w: World, k: nat)
    requires k < |AllCandidates(cfg, w)|
  {
    var url := AllCandidates(cfg, w)[k];
    var outcome := UpgradeOnce(cfg.platform, installed, url, w.serve(k, url)).0;
    outcome != Exit(OK) && outcome != Raised
  }

  /** A release that can be installed is installed when all locations before it fail. */
  lemma {:induction false} RunInstalls(cfg: Config, installed: Installed, w: World, k: nat)
    requires k < |AllCandidates(cfg, w)| && forall i: nat :: i < k ==> FailsAt(cfg, installed, w, i)
    requires var url := AllCandidates(cfg, w)[k]; Installable(cfg.platform, installed, url, w.serve(k, url))
    ensures Run(cfg, installed, w) == (Exit(OK), InstalledBy(w.serve(k, AllCandidates(cfg, w)[k])))
  {
    var t, urls := Trying(cfg, installed, w), AllCandidates(cfg, w);
    hide UpgradeOnce;
    AttemptOkIff(cfg.platform, installed, urls[k], w.serve(k, urls[k]));
    forall i: nat | i < k ensures Failed(t(i, urls[i])) {
      assert FailsAt(cfg, installed, w, i);
    }
    RunStops(cfg, installed, w, k);
  }

  /** What the first server has for the host itself comes before everything else. */
  lemma {:induction false} HostFirst(cfg: Config, installed: Installed, w: World, url: string)
    requires url == SplitOn(cfg.serverBase, ",")[0] + "/singles/" + cfg.orgId + "/" + cfg.sysId + "/" + cfg.hostname
    requires Installable(cfg.platform, installed, url, w.serve(0, url))
    ensures Run(cfg, installed, w) == (Exit(OK), InstalledBy(w.serve(0, url)))
  {
    LocationsInOrder(cfg, w, 0);
    RunInstalls(cfg, installed, w, 0);
  }

  // ---------- plain http ----------

  predicate IsPlainHttp(url: string) {
    var p := "http://";
    |p| <= |url| && Lower(url)[..|p|] == p
  }

  lemma HttpIsNotHttps(base: string, tail: string)
    requires IsPlainHttp(base)
    ensures !IsHttps(base + tail)
  {
    var s := Lower(base + tail);
    assert Lower(base)[..7][4] == ':';
    assert s[4] == ':';
    if IsHttps(base + tail) {
      SchemeLetter(s);
    }
  }

  lemma SchemeLetter(s: string)
    requires |s| >= 8 && s[..8] == "https://"
    ensures s[4] == 's'
  {
    assert s[..8][4] == 's';
  }

  lemma {:induction false} CandidatesOf(cfg: Config, bases: seq<string>, i: nat, offhour: nat -> bool, url: string)
    requires url in Candidates(cfg, bases, i, offhour)
    ensures exists b, tail :: b in bases && url == b + tail
    decreases |bases| - i
  {
    if url in BaseCandidates(cfg, bases[i], offhour(i)) {
      var b := bases[i];
      assert b <= url;
      assert url == b + url[|b|..];
    } else {
      CandidatesOf(cfg, bases, i + 1, offhour, url);
    }
  }

  /** With plain http bases, as the shipped configuration has them, run() always tries everything,
      returns ERR_DOWNLOAD_FAILED and changes nothing. */
  lemma {:induction false} PlainHttpNeverUpgrades(cfg: Config, installed: Installed, w: World)
    requires forall b :: b in SplitOn(cfg.serverBase, ",") ==> IsPlainHttp(b)
    ensures Run(cfg, installed, w) == (Exit(ERR_DOWNLOAD_FAILED), installed)
  {
    HttpAttemptsFail(cfg, installed, w);
    var attempts := Attempts(cfg, installed, w);
    if attempts != [] {
      assert attempts[|attempts| - 1] in attempts;
    }
  }

  lemma {:induction false} HttpAttemptsFail(cfg: Config, installed: Installed, w: World)
    requires forall b :: b in SplitOn(cfg.serverBase, ",") ==> IsPlainHttp(b)
    ensures forall a :: a in Attempts(cfg, installed, w) ==> Failed(a) && a.after == installed
  {
    var bases, urls, t := SplitOn(cfg.serverBase, ","), AllCandidates(cfg, w), Trying(cfg, installed, w);
    var attempts := Attempts(cfg, installed, w);
    TryAllIsFirstSuccess(t, 0, urls);
    forall a | a in attempts ensures Failed(a) && a.after == installed {
      var i :| 0 <= i < |attempts| && attempts[i] == a;
      CandidatesOf(cfg, bases, 0, w.offhour, urls[i]);
      var b, tail :| b in bases && urls[i] == b + tail;
      HttpAttemptFails(cfg, installed, 0 + i, b, tail, w);
    }
  }

  lemma {:induction false} HttpAttemptFails(cfg: Config, installed: Installed, k: nat, base: string, tail: string,
      w: World)
    requires IsPlainHttp(base)
    ensures var a := Trying(cfg, installed, w)(k, base + tail); Failed(a) && a.after == installed
  {
    HttpIsNotHttps(base, tail + "/version.json");
    assert base + (tail + "/version.json") == base + tail + "/version.json";
    NotOpened(cfg.platform, installed, base + tail, w.serve(k, base + tail));
  }

  // ---------- the agent object ----------

  class Agent {
    const cfg: Config
    var installed: Installed
    var downloads: map<string, Doc>
    var attempts: seq<Attempt>

    constructor (cfg: Config, installed: Installed)
      ensures this.cfg == cfg && this.installed == installed && attempts == []
    {
      this.cfg, this.installed := cfg, installed;
      downloads, attempts := map[], [];
    }

    method AttemptUpgrade(url: string, srv: Server) returns (outcome: Outcome)
      modifies this`installed, this`downloads
      ensures (outcome, installed) == UpgradeOnce(cfg.platform, old(installed), url, srv)
    {
      downloads := map[];
      var code := DownloadFile(url + "/version.json", srv.jsonDownload);
      if code != OK {
        return Exit(code);
      }
      if srv.doc.Some? {
        downloads := Store(downloads, url + "/version.json", srv.doc.value);
      }
      code := DownloadFile(url + "/version.json.sig", srv.jsonSigDownload);
      if code != OK {
        return Exit(code);
      }
      if installed.None? {
        return Exit(ERR_OLD_VERSION_MISSING);
      }
      if VERSION_JSON !in downloads {
        return Exit(ERR_NEW_VERSION_MISSING);
      }
      if !srv.docSigned {
        return Exit(ERR_BAD_SIGNATURE);
      }
      var old_ := ReadVersionFile(installed.value);
      if old_.None? {
        return Raised;
      }
      var new_ := ReadVersionFile(downloads[VERSION_JSON]);
      if new_.None? {
        return Raised;
      }
      if !ValidAttributes(old_.value, cfg.platform) {
        return Exit(ERR_PARSING_OLD_VERSION);
      }
      if !ValidAttributes(new_.value, cfg.platform) || !ValidRange(new_.value) {
        return Exit(ERR_PARSING_NEW_VERSION);
      }
      var v, n := old_.value.version.value, new_.value;
      if GreaterEq(v, n.version.value) {
        return Exit(WARN_VERSION_SAME);
      }
      if Less(v, n.upgradeMin.value) || LessEq(n.upgradeMax.value, v) {
        return Exit(WARN_OLD_VERSION_NOT_IN_RANGE);
      }
      if n.packageFile.value.Other? {
        return Raised;
      }
      code := InstallPackage(url, n, srv);
      if code != OK {
        return Exit(code);
      }
      installed := InArea(downloads, VERSION_JSON);
      return Exit(OK);
    }

    method InstallPackage(url: string, f: VersionFile, srv: Server) returns (code: ExitCode)
      requires NamesPackage(f)
      modifies this`downloads
      ensures (code, downloads) == FetchAndInstall(url, f, old(downloads), srv)
    {
      var pkg := url + "/" + f.packageFile.value.text;
      code := DownloadFile(pkg, srv.packageDownload);
      if code != OK {
        return;
      }
      downloads := Store(downloads, pkg, srv.package);
      code := DownloadFile(pkg + ".sig", srv.packageSigDownload);
      if code != OK {
        return;
      }
      code := ValidatePackage(f, downloads, srv);
      if code != OK {
        return;
      }
      if !srv.packageSigned {
        return ERR_BAD_SIGNATURE;
      }
      if srv.unpack != OK {
        return srv.unpack;
      }
      code := srv.install;
    }

    method RecordAttempt(url: string, w: World) returns (outcome: Outcome)
      modifies this
      ensures var a := Trying(cfg, old(installed), w)(|old(attempts)|, url);
              attempts == old(attempts) + [a] && installed == a.after && outcome == a.outcome
    {
      var before := installed;
      outcome := AttemptUpgrade(url, w.serve(|attempts|, url));
      attempts := attempts + [Attempt(url, outcome, before, installed)];
    }

    /** One attempt, recorded; `done` when run() stops there. `total` is what the whole run does:
        the attempts so far, then this URL, then the remaining ones. */
    method TryUrl(url: string, w: World, ghost total: seq<Attempt>, ghost rem: seq<string>)
      returns (outcome: Outcome, done: bool)
      requires total == attempts + TryAll(Trying(cfg, installed, w), |attempts|, [url] + rem)
      modifies this
      ensures Stopped(outcome, done, total, old(installed))
      ensures !done ==> total == attempts + TryAll(Trying(cfg, installed, w), |attempts|, rem)
    {
      TotalStep(Trying(cfg, installed, w), total, attempts, url, rem);
      TryKeeps(cfg, installed, |attempts|, url, w);
      outcome := RecordAttempt(url, w);
      done := outcome == Raised || outcome == Exit(OK);
    }

    /** After an attempt: either it was the last one of the run, or it failed and changed nothing. */
    ghost predicate Stopped(outcome: Outcome, done: bool, total: seq<Attempt>, before: Installed)
      reads this
    {
      && attempts != []
      && var last := attempts[|attempts| - 1];
      && last.after == installed && outcome == last.outcome && done == !Failed(last)
      && if done then total == attempts else installed == before
    }

    /** The attempts at one base URL. */
    method TryBase(base: string, offhour: bool, w: World, ghost total: seq<Attempt>, ghost later: seq<string>)
      returns (outcome: Outcome, done: bool)
      requires total == attempts + TryAll(Trying(cfg, installed, w), |attempts|, BaseCandidates(cfg, base,
          offhour) + later)
      modifies this
      ensures Stopped(outcome, done, total, old(installed))
      ensures !done ==> total == attempts + TryAll(Trying(cfg, installed, w), |attempts|, later)
    {
      hide UpgradeOnce;
      var hostUrl := base + "/singles/" + cfg.orgId + "/" + cfg.sysId + "/" + cfg.hostname;
      var clientUrl := base + "/singles/" + cfg.orgId + "/" + cfg.sysId + "/" + cfg.platform;
      var offhourUrl := base + "/offhour/" + cfg.platform;
      var latestUrl := base + "/latest/" + cfg.platform;
      ghost var rem := [latestUrl] + later;
      ghost var rem1 := if offhour then [offhourUrl] + rem else rem;
      assert BaseCandidates(cfg, base, offhour) + later == [hostUrl] + ([clientUrl] + rem1);
      outcome, done := TryUrl(hostUrl, w, total, [clientUrl] + rem1);
      if done {
        return;
      }
      outcome, done := TryUrl(clientUrl, w, total, rem1);
      if done {
        return;
      }
      if offhour {
        outcome, done := TryUrl(offhourUrl, w, total, rem);
        if done {
          return;
        }
      }
      outcome, done := TryUrl(latestUrl, w, total, later);
    }

    /** The loop over the base URLs. */
    method TryBases(bases: seq<string>, w: World, ghost total: seq<Attempt>) returns (result: Outcome)
      requires attempts == [] && total == TryAll(Trying(cfg, installed, w), 0, Candidates(cfg, bases, 0, w.offhour))
      modifies this
      ensures attempts == total && result == ResultOf(total) && installed == AfterOf(total, old(installed))
    {
      hide UpgradeOnce, TryAll, BaseCandidates;
      var b := 0;
      assert attempts + total == total;
      while b < |bases|
        invariant b <= |bases| && installed == old(installed)
        invariant total == attempts + TryAll(Trying(cfg, installed, w), |attempts|, Candidates(cfg, bases, b,
            w.offhour))
        invariant attempts == [] || (Failed(attempts[|attempts| - 1]) && attempts[|attempts| - 1].after == installed)
      {
        var done: bool;
        result, done := TryBase(bases[b], w.offhour(b), w, total, Candidates(cfg, bases, b + 1, w.offhour));
        if done {
          return;
        }
        b := b + 1;
      }
      result := Exit(ERR_DOWNLOAD_FAILED);
      TryNone(Trying(cfg, installed, w), |attempts|);
      assert total == attempts;
    }

    /** run(), with the exceptions that leave an attempt. */
    method RunAgent(w: World) returns (result: Outcome)
      modifies this
      ensures attempts == Attempts(cfg, old(installed), w)
      ensures (result, installed) == Run(cfg, old(installed), w)
    {
      attempts := [];
      result := TryBases(SplitOn(cfg.serverBase, ","), w, Attempts(cfg, installed, w));
    }
  }
}
