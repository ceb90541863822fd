/**
 * The decisions the install script makes before and after downloading the
 * scanner (install.js): which version and release archive to fetch, which
 * asset holds it, which entries of an old installation to delete, and the
 * file-system steps around the download.
 */
module Installer {
  import opened Wrappers
  import opened JsStrings
  import Config

  /** `\d`: an ASCII digit. */
  predicate IsDigit(c: char)
  {
    '0' <= c <= '9'
  }

  /** `\d+`. */
  predicate IsDigits(g: string)
  {
    |g| > 0 && forall k :: 0 <= k < |g| ==> IsDigit(g[k])
  }

  /** What is left for `(...)` once `^v?` has matched. */
  function WithoutV(tag: string): (body: string)
    ensures tag == body || tag == "v" + body
  {
    if |tag| > 0 && tag[0] == 'v' then tag[1..] else tag
  }

  /** `\d+\.\d+\.\d+\.\d+`: exactly four dot-separated digit groups. */
  predicate IsDottedQuad(body: string): (b: bool)
    ensures b ==> |body| >= 7 && IsDigit(body[0]) && IsDigit(body[|body| - 1])
  {
    var groups := Split(body, ".");
    if |groups| == 4 && forall g <- groups :: IsDigits(g) then
      QuadEnds(body, groups);
      true
    else
      false
  }

  /** A text that splits into four digit groups is at least `d.d.d.d` long and starts and ends with a digit. */
  lemma QuadEnds(body: string, groups: seq<string>)
    requires groups == Split(body, ".") && |groups| == 4 && forall g <- groups :: IsDigits(g)
    ensures |body| >= 7 && IsDigit(body[0]) && IsDigit(body[|body| - 1])
  {
    JoinSplit(body, ".");
    JoinFour(groups, ".");
    assert groups[0] in groups && groups[1] in groups && groups[2] in groups && groups[3] in groups;
    var front := groups[0] + "." + groups[1] + "." + groups[2] + ".";
    assert body == front + groups[3];
    assert body[0] == groups[0][0];
    assert body[|body| - 1] == groups[3][|groups[3]| - 1];
  }

  /**
   * Line 13: `version.match(/^v?(\d+\.\d+\.\d+\.\d+)$/)[1]`, with `None`
   * where there is no match and reading `[1]` of `null` throws.
   */
  function ParseVersion(tag: string): (r: Option<string>)
    ensures r.Some? ==> tag == r.value || tag == "v" + r.value
  {
    var body := WithoutV(tag);
    if IsDottedQuad(body) then Some(body) else None
  }

  function Quad(a: string, b: string, c: string, d: string): string
  {
    a + "." + b + "." + c + "." + d
  }

  /** An accepted version is four digit groups joined by dots. */
  lemma ParseVersionSound(tag: string)
    requires ParseVersion(tag).Some?
    ensures var v := ParseVersion(tag).value;
      var g := Split(v, ".");
      && |g| == 4
      && IsDigits(g[0]) && IsDigits(g[1]) && IsDigits(g[2]) && IsDigits(g[3])
      && v == Quad(g[0], g[1], g[2], g[3])
  {
    var v := ParseVersion(tag).value;
    assert v == WithoutV(tag);
    assert IsDottedQuad(v);
    DottedQuadShape(v);
  }

  lemma DottedQuadShape(v: string)
    requires IsDottedQuad(v)
    ensures var g := Split(v, ".");
      && |g| == 4
      && IsDigits(g[0]) && IsDigits(g[1]) && IsDigits(g[2]) && IsDigits(g[3])
      && v == Quad(g[0], g[1], g[2], g[3])
  {
    var g := Split(v, ".");
    JoinSplit(v, ".");
    JoinFour(g, ".");
    assert g[0] in g && g[1] in g && g[2] in g && g[3] in g;
  }

  /** Four digit groups joined by dots split back into those groups. */
  lemma SplitQuad(a: string, b: string, c: string, d: string)
    requires IsDigits(a) && IsDigits(b) && IsDigits(c) && IsDigits(d)
    ensures Split(Quad(a, b, c, d), ".") == [a, b, c, d]
  {
    var s := Quad(a, b, c, d);
    var p1 := |a|;
    var p2 := p1 + 1 + |b|;
    var p3 := p2 + 1 + |c|;
    QuadLayout(a, b, c, d);
    SplitLaidOut(s, a, b, c, d, p1, p2, p3);
  }

  /** The split of a text whose dots lie at `p1`, `p2` and `p3` only. */
  lemma SplitLaidOut(s: string, a: string, b: string, c: string, d: string, p1: nat, p2: nat, p3: nat)
    requires p1 < p2 < p3 < |s|
    requires s[p1] == '.' && s[p2] == '.' && s[p3] == '.'
    requires s[0..p1] == a && s[p1 + 1..p2] == b && s[p2 + 1..p3] == c && s[p3 + 1..] == d
    requires DotFree(s, 0, p1) && DotFree(s, p1 + 1, p2) && DotFree(s, p2 + 1, p3) && DotFree(s, p3 + 1, |s|)
    ensures Split(s, ".") == [a, b, c, d]
  {
    LastThreeGroups(s, b, c, d, p1, p2, p3);
    GroupBeforeDot(s, 0, p1, a, [b, c, d]);
    assert [a] + [b, c, d] == [a, b, c, d];
  }

  lemma LastThreeGroups(s: string, b: string, c: string, d: string, p1: nat, p2: nat, p3: nat)
    requires p1 < p2 < p3 < |s|
    requires s[p2] == '.' && s[p3] == '.'
    requires s[p1 + 1..p2] == b && s[p2 + 1..p3] == c && s[p3 + 1..] == d
    requires DotFree(s, p1 + 1, p2) && DotFree(s, p2 + 1, p3) && DotFree(s, p3 + 1, |s|)
    ensures SplitFrom(s, ".", p1 + 1) == [b, c, d]
  {
    LastTwoGroups(s, c, d, p2, p3);
    GroupBeforeDot(s, p1 + 1, p2, b, [c, d]);
    assert [b] + [c, d] == [b, c, d];
  }

  lemma LastTwoGroups(s: string, c: string, d: string, p2: nat, p3: nat)
    requires p2 < p3 < |s|
    requires s[p3] == '.'
    requires s[p2 + 1..p3] == c && s[p3 + 1..] == d
    requires DotFree(s, p2 + 1, p3) && DotFree(s, p3 + 1, |s|)
    ensures SplitFrom(s, ".", p2 + 1) == [c, d]
  {
    SplitFromWithoutChar(s, '.', p3 + 1);
    GroupBeforeDot(s, p2 + 1, p3, c, [d]);
    assert [c] + [d] == [c, d];
  }

  /** No dot in `s` between `lo` and `hi`. */
  predicate DotFree(s: string, lo: nat, hi: nat)
  {
    forall k :: lo <= k < hi && k < |s| ==> s[k] != '.'
  }

  /** One step of the split: the group `group` ends at the dot at `i`. */
  lemma GroupBeforeDot(s: string, from: nat, i: nat, group: string, rest: seq<string>)
    requires from <= i < |s| && s[i] == '.'
    requires DotFree(s, from, i)
    requires s[from..i] == group && SplitFrom(s, ".", i + 1) == rest
    ensures SplitFrom(s, ".", from) == [group] + rest
  {
    SplitFromAtChar(s, '.', from, i);
  }

  /** Where the groups and the dots of a dotted quad lie. */
  lemma QuadLayout(a: string, b: string, c: string, d: string)
    requires IsDigits(a) && IsDigits(b) && IsDigits(c) && IsDigits(d)
    ensures var s := Quad(a, b, c, d);
      var p1 := |a|;
      var p2 := p1 + 1 + |b|;
      var p3 := p2 + 1 + |c|;
      && |s| == p3 + 1 + |d|
      && s[p1] == '.' && s[p2] == '.' && s[p3] == '.'
      && s[0..p1] == a && s[p1 + 1..p2] == b && s[p2 + 1..p3] == c && s[p3 + 1..] == d
      && DotFree(s, 0, p1) && DotFree(s, p1 + 1, p2) && DotFree(s, p2 + 1, p3) && DotFree(s, p3 + 1, |s|)
  {
    var s := Quad(a, b, c, d);
    var p1 := |a|;
    var p2 := p1 + 1 + |b|;
    var p3 := p2 + 1 + |c|;
    assert s == a + "." + b + "." + c + "." + d;
    forall k | 0 <= k < p1 ensures s[k] != '.' { assert s[k] == a[k]; }
    forall k | p1 + 1 <= k < p2 ensures s[k] != '.' { assert s[k] == b[k - p1 - 1]; }
    forall k | p2 + 1 <= k < p3 ensures s[k] != '.' { assert s[k] == c[k - p2 - 1]; }
    forall k | p3 + 1 <= k < |s| ensures s[k] != '.' { assert s[k] == d[k - p3 - 1]; }
  }

  /** Every four digit groups joined by dots are accepted, with or without a leading `v`. */
  lemma ParseVersionComplete(a: string, b: string, c: string, d: string)
    requires IsDigits(a) && IsDigits(b) && IsDigits(c) && IsDigits(d)
    ensures ParseVersion(Quad(a, b, c, d)) == Some(Quad(a, b, c, d))
    ensures ParseVersion("v" + Quad(a, b, c, d)) == Some(Quad(a, b, c, d))
  {
    var v := Quad(a, b, c, d);
    SplitQuad(a, b, c, d);
    QuadLayout(a, b, c, d);
    assert v[0] == a[0];
    assert ("v" + v)[1..] == v;
  }

  /** The version configured in config.js:4 is `1.9.3.3`. */
  lemma ConfiguredVersion()
    ensures ParseVersion(Config.VERSION_TAG) == Some("1.9.3.3")
  {
    ConfiguredTag();
    ParseVersionComplete("1", "9", "3", "3");
  }

  lemma ConfiguredTag()
    ensures IsDigits("1") && IsDigits("9") && IsDigits("3")
    ensures Quad("1", "9", "3", "3") == "1.9.3.3"
    ensures Config.VERSION_TAG == "v" + "1.9.3.3"
  {
  }

  /** Why the installer gives up before downloading anything (lines 13, 36-38 and 42-44). */
  datatype InstallError =
    | MalformedVersion(tag: string)
    | UnsupportedPlatform(platform: string, arch: string)
    | ExecutableNotFound(releaseName: string, tag: string)

  /** The supported `(process.platform, process.arch)` pairs and the system name the release uses for each. */
  const RELEASE_SYSTEMS: map<(string, string), string> := map[
    ("linux", "arm") := "linux",
    ("linux", "arm64") := "linux",
    ("linux", "x64") := "linux",
    ("darwin", "x64") := "osx",
    ("win32", "x64") := "win"
  ]

  /** The file name every release archive follows: the version, then the system and architecture, then the fixed suffix. */
  function ArchiveName(version: string, system: string, arch: string): (name: string)
    ensures "OpenDirectoryDownloader-" + version + "-" <= name
    ensures |name| >= 19 && name[|name| - 19..] == "-self-contained.zip"
  {
    "OpenDirectoryDownloader-" + version + "-" + system + "-" + arch + "-self-contained.zip"
  }

  /** Lines 16-38: the archive for this platform and architecture, or the unsupported-platform error. */
  function ReleaseName(platform: string, arch: string, version: string): (r: Result<string, InstallError>)
    ensures r.Success? <==> (platform, arch) in RELEASE_SYSTEMS
    ensures r.Success? ==> r.value == ArchiveName(version, RELEASE_SYSTEMS[(platform, arch)], arch)
    ensures r.Failure? ==> r.error == UnsupportedPlatform(platform, arch)
  {
    if arch == "arm" && platform == "linux" then Success(ArchiveName(version, "linux", "arm"))
    else if arch == "arm64" && platform == "linux" then Success(ArchiveName(version, "linux", "arm64"))
    else if arch == "x64" && platform == "linux" then Success(ArchiveName(version, "linux", "x64"))
    else if arch == "x64" && platform == "darwin" then Success(ArchiveName(version, "osx", "x64"))
    else if arch == "x64" && platform == "win32" then Success(ArchiveName(version, "win", "x64"))
    else Failure(UnsupportedPlatform(platform, arch))
  }

  /** One entry of the release's asset list. */
  datatype Asset = Asset(name: string, downloadUrl: string)

  /** The position of the first asset named `name` at or after `from`. */
  function AssetIndexFrom(assets: seq<Asset>, name: string, from: nat): (r: Option<nat>)
    requires from <= |assets|
    ensures r.Some? ==> from <= r.value < |assets| && assets[r.value].name == name
    ensures r.Some? ==> forall j :: from <= j < r.value ==> assets[j].name != name
    ensures r.None? ==> forall j :: from <= j < |assets| ==> assets[j].name != name
    decreases |assets| - from
  {
    if from == |assets| then None
    else if assets[from].name == name then Some(from)
    else AssetIndexFrom(assets, name, from + 1)
  }

  /** Line 40: `assets.find(asset => asset.name === releaseName)`, the first asset with that name. */
  function FindAsset(assets: seq<Asset>, name: string): (r: Option<Asset>)
    ensures r.None? <==> forall j :: 0 <= j < |assets| ==> assets[j].name != name
    ensures r.Some? ==> exists i :: 0 <= i < |assets| && assets[i] == r.value && r.value.name == name
                                   && forall j :: 0 <= j < i ==> assets[j].name != name
  {
    match AssetIndexFrom(assets, name, 0)
    case None => None
    case Some(i) => Some(assets[i])
  }

  /**
   * Lines 13-46: the download URL of the archive for this platform, or the
   * first reason to stop: a malformed version, an unsupported platform, or
   * no asset of that name.
   */
  function SelectRelease(tag: string, platform: string, arch: string, assets: seq<Asset>): (r: Result<string, InstallError>)
    ensures ParseVersion(tag).None? ==> r == Failure(MalformedVersion(tag))
    ensures ParseVersion(tag).Some? && (platform, arch) !in RELEASE_SYSTEMS ==>
              r == Failure(UnsupportedPlatform(platform, arch))
    ensures ParseVersion(tag).Some? && (platform, arch) in RELEASE_SYSTEMS ==>
              var name := ArchiveName(ParseVersion(tag).value, RELEASE_SYSTEMS[(platform, arch)], arch);
              && (r.Success? <==> exists j :: 0 <= j < |assets| && assets[j].name == name)
              && (r.Success? ==> FindAsset(assets, name).Some? && r.value == FindAsset(assets, name).value.downloadUrl)
              && (r.Success? ==> exists j :: 0 <= j < |assets| && assets[j].name == name && assets[j].downloadUrl == r.value
                                             && forall k :: 0 <= k < j ==> assets[k].name != name)
              && (r.Failure? ==> r.error == ExecutableNotFound(name, tag))
  {
    match ParseVersion(tag)
    case None => Failure(MalformedVersion(tag))
    case Some(version) =>
      match ReleaseName(platform, arch, version)
      case Failure(e) => Failure(e)
      case Success(name) =>
        match FindAsset(assets, name)
        case None => Failure(ExecutableNotFound(name, tag))
        case Some(asset) => Success(asset.downloadUrl)
  }

  /** An entry of a directory listing (`fs.Dirent`). */
  datatype Dirent = Dirent(name: string, isDirectory: bool)

  /**
   * Lines 57-63: a directory goes unless its name is `keep`, the configured
   * output folder name (`None` for an undefined one); a file always goes.
   */
  predicate MarkedForRemoval(d: Dirent, keep: Option<string>): (b: bool)
    ensures !d.isDirectory ==> b
    ensures keep.None? ==> b
    ensures d.isDirectory && keep == Some(d.name) ==> !b
  {
    if d.isDirectory then !(keep.Some? && keep.value == d.name) else true
  }

  /** `allDirents.filter(...)`: the marked entries, in listing order. */
  function DirentsToRemove(listing: seq<Dirent>, keep: Option<string>): (r: seq<Dirent>)
    ensures forall d :: d in r <==> d in listing && MarkedForRemoval(d, keep)
    ensures |r| <= |listing|
  {
    if listing == [] then []
    else (if MarkedForRemoval(listing[0], keep) then [listing[0]] else []) + DirentsToRemove(listing[1..], keep)
  }

  /** The entries the filter lets stay. */
  function DirentsKept(listing: seq<Dirent>, keep: Option<string>): (r: seq<Dirent>)
    ensures forall d :: d in r <==> d in listing && !MarkedForRemoval(d, keep)
  {
    if listing == [] then []
    else (if MarkedForRemoval(listing[0], keep) then [] else [listing[0]]) + DirentsKept(listing[1..], keep)
  }

  /** The filter neither loses nor invents entries: removed and kept ones make up the listing. */
  lemma {:induction false} RemovalPartition(listing: seq<Dirent>, keep: Option<string>)
    ensures multiset(DirentsToRemove(listing, keep)) + multiset(DirentsKept(listing, keep)) == multiset(listing)
  {
    if listing != [] {
      var head := listing[0];
      var tail := listing[1..];
      assert listing == [head] + tail;
      var removed := if MarkedForRemoval(head, keep) then [head] else [];
      var kept := if MarkedForRemoval(head, keep) then [] else [head];
      assert DirentsToRemove(listing, keep) == removed + DirentsToRemove(tail, keep);
      assert DirentsKept(listing, keep) == kept + DirentsKept(tail, keep);
      RemovalPartition(tail, keep);
      assert multiset(removed) + multiset(kept) == multiset([head]);
    }
  }

  /** Only a directory named `keep` is kept. */
  lemma KeptOnlyOutputFolder(listing: seq<Dirent>, keep: Option<string>)
    ensures forall d :: d in DirentsKept(listing, keep) <==> d in listing && d.isDirectory && keep == Some(d.name)
  {
  }

  /**
   * The name install.js:59 reads, `CONFIG.OpenDirectoryDownloaderOutputFolderName`:
   * config.js defines no such property, so the value is `undefined`.
   */
  const OUTPUT_FOLDER_NAME_AS_WRITTEN: Option<string> := None

  /** The name the output folder has in config.js:8, which the filter evidently means to keep. */
  const OUTPUT_FOLDER_NAME: Option<string> := Some("Scans")

  /** The filter as written: every entry of the old installation is removed, the `Scans` directory too. */
  function CleanupAsWritten(listing: seq<Dirent>): (r: seq<Dirent>)
    ensures forall d :: d in r <==> d in listing
    ensures Dirent("Scans", true) in listing ==> Dirent("Scans", true) in r
  {
    DirentsToRemove(listing, OUTPUT_FOLDER_NAME_AS_WRITTEN)
  }

  /** The filter as intended: everything goes except the `Scans` directory holding earlier scans. */
  function Cleanup(listing: seq<Dirent>): (r: seq<Dirent>)
    ensures forall d :: d in r <==> d in listing && !(d.isDirectory && d.name == "Scans")
    ensures Dirent("Scans", true) !in r
  {
    DirentsToRemove(listing, OUTPUT_FOLDER_NAME)
  }

  /** The intended name is the last component of the configured output folder. */
  lemma OutputFolderNameMatches(root: string)
    ensures Config.OutputFolder(root) == Config.Folder(root) + "/" + OUTPUT_FOLDER_NAME.value
  {
  }

  /** A step the installer takes on the file system; the calls themselves are not modelled. */
  datatype FsStep =
    | RemoveTree(path: string)
    | MakeDir(path: string)
    | Unlink(path: string)
    | Chmod(path: string, mode: int)

  /** `rmSync(<folder>/<name>, { recursive: true })` for each entry, in order. */
  function Removals(folder: string, entries: seq<Dirent>): (r: seq<FsStep>)
    ensures |r| == |entries|
    ensures forall i :: 0 <= i < |entries| ==> r[i] == RemoveTree(folder + "/" + entries[i].name)
  {
    seq(|entries|, i requires 0 <= i < |entries| => RemoveTree(folder + "/" + entries[i].name))
  }

  /**
   * Lines 50-79. `folderIsDirectory` is what `existsSync` and `lstatSync`
   * report for the installation folder, `listing` what `readdirSync`
   * returns, `keep` the output folder name the filter reads, and
   * `outputFolderExists` what `existsSync` reports for the output folder
   * after the removals. The source as written passes
   * `OUTPUT_FOLDER_NAME_AS_WRITTEN`; the corrected installer passes
   * `OUTPUT_FOLDER_NAME`.
   */
  method PrepareFolders(folder: string, outputFolder: string, folderIsDirectory: bool, listing: seq<Dirent>,
                        keep: Option<string>, outputFolderExists: bool) returns (steps: seq<FsStep>)
    ensures steps == (if folderIsDirectory then Removals(folder, DirentsToRemove(listing, keep)) else [MakeDir(folder)])
                     + (if outputFolderExists then [] else [MakeDir(outputFolder)])
  {
    steps := [];
    if folderIsDirectory {
      var direntsToRemove := DirentsToRemove(listing, keep);
      for i := 0 to |direntsToRemove|
        invariant |steps| == i
        invariant forall j :: 0 <= j < i ==> steps[j] == RemoveTree(folder + "/" + direntsToRemove[j].name)
      {
        steps := steps + [RemoveTree(folder + "/" + direntsToRemove[i].name)];
      }
      assert steps == Removals(folder, direntsToRemove);
    } else {
      steps := [MakeDir(folder)];
    }
    if !outputFolderExists {
      steps := steps + [MakeDir(outputFolder)];
    }
  }

  /**
   * As written, an existing `Scans` directory of earlier scans is removed:
   * the removals of the filter that reads the undefined name include the
   * output folder.
   */
  lemma ScansRemovedAsWritten(root: string, listing: seq<Dirent>)
    requires Dirent("Scans", true) in listing
    ensures RemoveTree(Config.OutputFolder(root))
            in Removals(Config.Folder(root), DirentsToRemove(listing, OUTPUT_FOLDER_NAME_AS_WRITTEN))
  {
    var removed := DirentsToRemove(listing, OUTPUT_FOLDER_NAME_AS_WRITTEN);
    assert Dirent("Scans", true) in removed;
    RemovalOf(Config.Folder(root), removed, Dirent("Scans", true));
    OutputFolderNameMatches(root);
  }

  /** Every entry to remove yields its removal step. */
  lemma RemovalOf(folder: string, entries: seq<Dirent>, d: Dirent)
    requires d in entries
    ensures RemoveTree(folder + "/" + d.name) in Removals(folder, entries)
  {
    var i :| 0 <= i < |entries| && entries[i] == d;
    assert Removals(folder, entries)[i] == RemoveTree(folder + "/" + d.name);
  }

  /**
   * As corrected, earlier scans survive: the output folder inside the installation is never
   * removed, provided the entry named `Scans`, if any, is that directory.
   */
  lemma ScansSurvive(root: string, listing: seq<Dirent>)
    requires forall d :: d in listing && d.name == "Scans" ==> d.isDirectory
    ensures RemoveTree(Config.OutputFolder(root)) !in Removals(Config.Folder(root), Cleanup(listing))
  {
    var folder := Config.Folder(root);
    var removals := Removals(folder, Cleanup(listing));
    forall i | 0 <= i < |removals|
      ensures removals[i] != RemoveTree(Config.OutputFolder(root))
    {
      var d := Cleanup(listing)[i];
      assert d in Cleanup(listing);
      if removals[i] == RemoveTree(Config.OutputFolder(root)) {
        PrefixCancels(folder + "/", d.name, "Scans");
      }
    }
  }

  /** Lines 98-104: the downloaded archive is deleted; on linux the executable is then made executable. */
  function AfterExtraction(platform: string, folder: string): (steps: seq<FsStep>)
    ensures |steps| == if platform == "linux" then 2 else 1
    ensures steps[0] == Unlink(folder + "/ODD.zip")
    ensures (exists i :: 0 <= i < |steps| && steps[i].Chmod?) <==> platform == "linux"
    ensures forall i :: 0 <= i < |steps| && steps[i].Chmod? ==>
              steps[i] == Chmod(folder + "/" + Config.EXECUTABLE_NAME, 0x1ED)
  {
    var steps := [Unlink(folder + "/ODD.zip")]
      + (if platform == "linux" then [Chmod(folder + "/OpenDirectoryDownloader", 0x1ED)] else []);
    assert platform == "linux" ==> steps[1].Chmod?;
    steps
  }

  /** The file made executable is the one the scanner wrapper runs by default. */
  lemma ChmodTargetsExecutable(root: string)
    ensures AfterExtraction("linux", Config.Folder(root))[1].path == Config.ExecutablePath(root, "linux")
  {
  }
}
