/** packager and deployer of update_manager.py for one host: the files that one iteration leaves in the
    host's temporary directory, and their copy over the published ones. */
module Packager {
  import opened Wrappers
  import opened Versions
  import opened Release
  import M = UpdateManager

  /** The archive agent.tar.gz, known by its checksum: not begun, left unfinished, or complete. */
  datatype Tar = NoTar | Unfinished(checksum: string) | Whole(checksum: string)

  /** gpg.sign_file writes a signature, silently writes none, or raises. */
  datatype Signing = Signed | Unsigned | Failed

  datatype Numbers = Numbers(major: int, minor: int, patch: int)

  /** How the calls of packager go for one host; `cmdb` is None when get_current_version raises. */
  datatype Calls = Calls(tar: Tar, cmdb: Option<Numbers>, packageSigning: Signing, jsonSigning: Signing)

  /** The four files of a host that outlive the cleanup: the text of version.json, the text that
      version.json.sig signs, the checksum of the package, the checksum that its signature signs. */
  datatype Files = Files(json: Option<string>, jsonSig: Option<string>, package: Option<string>,
                         packageSig: Option<string>)

  const NOTHING := Files(None, None, None, None)

  /** The version.json that packager would write: None when the CMDB or a key fails. */
  function JsonFor(tmp: string, s: M.State, h: M.Host, cmdb: Option<Numbers>, checksum: string): Option<string> {
    match cmdb
    case None => None
    case Some(n) => Package(tmp, s, h, CurrentVersion(n.major, n.minor, n.patch), checksum)
  }

  /** packager for one host: the package comes first, and any exception ends it where it occurs. */
  function PackHost(tmp: string, s: M.State, h: M.Host, calls: Calls): Files {
    if M.HostDir(tmp, h) !in s.dirs then NOTHING
    else
      match calls.tar
      case NoTar => NOTHING
      case Unfinished(checksum) => NOTHING.(package := Some(checksum))
      case Whole(checksum) =>
        var json := JsonFor(tmp, s, h, calls.cmdb, checksum);
        Files(json,
              if calls.packageSigning.Failed? || !calls.jsonSigning.Signed? then None else json,
              Some(checksum),
              if json.Some? && calls.packageSigning.Signed? then Some(checksum) else None)
  }

  /** What is in the directory afterwards: a package once it was begun, a version.json about it once the
      CMDB answered and both keys are there, and signatures of nothing but these two. */
  lemma PackLeaves(tmp: string, s: M.State, h: M.Host, calls: Calls)
    requires M.HostDir(tmp, h) in s.dirs
    ensures var d, key := PackHost(tmp, s, h, calls), h.org + "_" + h.sys + "_" + h.name;
            && (d.package.Some? <==> !calls.tar.NoTar?)
            && (d.package.Some? ==> d.package == Some(calls.tar.checksum))
            && (d.json.Some? <==> calls.tar.Whole? && calls.cmdb.Some? && key in s.versions && key in s.platforms)
            && (d.json.Some? ==>
                  var n := calls.cmdb.value;
                  d.json == Some(PublishedText(Version(n.major, n.minor, n.patch, s.versions[key]), s.platforms[key],
                                               calls.tar.checksum)))
            && (d.packageSig.Some? <==> d.json.Some? && calls.packageSigning.Signed?)
            && (d.jsonSig.Some? <==> d.json.Some? && !calls.packageSigning.Failed? && calls.jsonSigning.Signed?)
            && (d.packageSig.Some? ==> d.packageSig == d.package)
            && (d.jsonSig.Some? ==> d.jsonSig == d.json)
  {
    hide TextOf, M.HostDir;
  }

  function Over<T>(published: Option<T>, new_: Option<T>): Option<T> {
    if new_.Some? then new_ else published
  }

  /** cp -rf: what is there replaces what was published, and the rest stays. */
  function Deploy(published: Files, left: Files): Files {
    Files(Over(published.json, left.json), Over(published.jsonSig, left.jsonSig),
          Over(published.package, left.package), Over(published.packageSig, left.packageSig))
  }

  /** The directory of one host. */
  class HostDirectory {
    var json: Option<string>
    var jsonSig: Option<string>
    var package: Option<string>
    var packageSig: Option<string>

    ghost function Contents(): Files
      reads this
    {
      Files(json, jsonSig, package, packageSig)
    }

    constructor ()
      ensures Contents() == NOTHING
    {
      json, jsonSig, package, packageSig := None, None, None, None;
    }

    /** The body of packager's try block, in a directory that fetcher has just made; false when an
        exception ends it. */
    method Pack(tmp: string, s: M.State, h: M.Host, calls: Calls) returns (ok: bool)
      requires M.HostDir(tmp, h) in s.dirs && Contents() == NOTHING
      modifies this
      ensures Contents() == PackHost(tmp, s, h, calls)
    {
      if calls.tar.NoTar? {
        return false;
      }
      package := Some(calls.tar.checksum);
      if calls.tar.Unfinished? {
        return false;
      }
      var checksum := calls.tar.checksum;
      if calls.cmdb.None? {
        return false;
      }
      var n := calls.cmdb.value;
      var currVersion := CurrentVersion(n.major, n.minor, n.patch);
      var key := M.KeyOf(h);
      if key !in s.versions {
        return false;
      }
      var version := s.versions[key];
      if key !in s.platforms {
        return false;
      }
      json := Some(TextOf(PublishedDoc(currVersion, version, s.platforms[key], checksum)));
      if calls.packageSigning.Failed? {
        return false;
      }
      if calls.packageSigning.Signed? {
        packageSig := package;
      }
      if calls.jsonSigning.Failed? {
        return false;
      }
      if calls.jsonSigning.Signed? {
        jsonSig := json;
      }
      return true;
    }

    /** The copy of a host's temporary directory over this one. */
    method CopyFrom(left: HostDirectory)
      requires left != this
      modifies this
      ensures Contents() == Deploy(old(Contents()), left.Contents())
    {
      if left.json.Some? {
        json := left.json;
      }
      if left.jsonSig.Some? {
        jsonSig := left.jsonSig;
      }
      if left.package.Some? {
        package := left.package;
      }
      if left.packageSig.Some? {
        packageSig := left.packageSig;
      }
    }
  }
}
