/**
 * The command-line side of chromium-downloader.js: choosing the mode from the
 * arguments, reading the downloaded builds from the `chrome` folder, the
 * per-major profile folder a launch uses, the launch prompt, and the download
 * prompt that turns an answer such as `1,3,143` into the versions to fetch.
 * Paths are lists of components relative to the working directory.
 */
module ChromeCli {
  import opened Wrappers
  import opened JsStrings
  import opened ChromeVersions

  // ---------------------------------------------------------------------------
  // Modes

  datatype Mode = Help | List | Launch | Download

  /** The mode `main` runs for the arguments after the script name. */
  function ModeOf(args: seq<string>): Mode {
    if args == [] then Download
    else if args[0] == "help" || args[0] == "-h" || args[0] == "--help" then Help
    else if args[0] == "list" then List
    else if args[0] == "launch" || args[0] == "run" then Launch
    else Download
  }

  /** Only the first argument matters, and anything that is not a command word downloads. */
  lemma ModeOfFirstArgument(args: seq<string>)
    ensures args != [] ==> ModeOf(args) == ModeOf(args[..1])
    ensures ModeOf(args) == Download <==>
      args == [] || args[0] !in {"help", "-h", "--help", "list", "launch", "run"}
  {
  }

  // ---------------------------------------------------------------------------
  // Installed builds

  const FolderPrefix: string := "win64-"

  /** `d.replace('win64-', '')` for a folder name that starts with the prefix; `None` for the others. */
  function FolderVersion(name: string): Option<string> {
    if StartsWith(name, FolderPrefix) then Some(name[|FolderPrefix|..]) else None
  }

  lemma FolderVersionIff(name: string, version: string)
    ensures FolderVersion(name) == Some(version) <==> name == FolderPrefix + version
  {
    if name == FolderPrefix + version {
      assert name[..|FolderPrefix|] == FolderPrefix;
    }
  }

  /** `chrome/<name>/chrome-win64/chrome.exe` */
  function ExePath(name: string): seq<string> {
    ["chrome", name, "chrome-win64", "chrome.exe"]
  }

  datatype Installation = Installation(version: string, exePath: seq<string>)

  /** The installations among folder names, in listing order; `pathExists` answers fs.existsSync, which holds for folders as well as files. */
  function Installations(names: seq<string>, pathExists: seq<string> -> bool): seq<Installation> {
    if names == [] then []
    else
      var rest := Installations(names[1..], pathExists);
      match FolderVersion(names[0])
      case Some(version) =>
        if pathExists(ExePath(names[0])) then [Installation(version, ExePath(names[0]))] + rest else rest
      case None => rest
  }

  /** getInstalledVersions: `listing` is the `chrome` folder's entries, `None` when the folder is absent. */
  function InstalledVersions(listing: Option<seq<string>>, pathExists: seq<string> -> bool): seq<Installation> {
    match listing
    case None => []
    case Some(names) => Installations(names, pathExists)
  }

  /** A build is listed exactly when its folder is `win64-<version>` and its executable exists. */
  lemma {:induction false} InstallationsIff(names: seq<string>, pathExists: seq<string> -> bool, inst: Installation)
    ensures inst in Installations(names, pathExists) <==>
      exists name :: name in names && name == FolderPrefix + inst.version
        && inst.exePath == ExePath(name) && pathExists(inst.exePath)
  {
    if names != [] {
      InstallationsIff(names[1..], pathExists, inst);
      FolderVersionIff(names[0], inst.version);
      var name := names[0];
      if inst in Installations(names, pathExists) && inst !in Installations(names[1..], pathExists) {
        assert name in names && name == FolderPrefix + inst.version;
      }
      if name == FolderPrefix + inst.version && inst.exePath == ExePath(name) && pathExists(inst.exePath) {
        assert inst in Installations(names, pathExists);
      }
      forall n | n in names[1..] ensures n in names {
      }
      forall n | n in names && n != name ensures n in names[1..] {
      }
    }
  }

  /** The list never has more builds than the folder has entries. */
  lemma {:induction false} InstallationsBound(names: seq<string>, pathExists: seq<string> -> bool)
    ensures |Installations(names, pathExists)| <= |names|
  {
    if names != [] {
      InstallationsBound(names[1..], pathExists);
    }
  }

  // ---------------------------------------------------------------------------
  // Launching

  /** `chrome-profiles/v<major>`: every version of one major shares its profile folder. */
  function ProfileDir(version: string): seq<string> {
    ["chrome-profiles", "v" + MajorOf(version)]
  }

  lemma ProfileDirIff(a: string, b: string)
    ensures ProfileDir(a) == ProfileDir(b) <==> MajorOf(a) == MajorOf(b)
  {
    if ProfileDir(a) == ProfileDir(b) {
      assert ("v" + MajorOf(a))[1..] == MajorOf(a);
      assert ("v" + MajorOf(b))[1..] == MajorOf(b);
    }
  }

  /** A detached `chrome.exe --user-data-dir=<profile>` process. */
  datatype Spawn = Spawn(exe: seq<string>, userDataDir: seq<string>)

  /** launchChrome: the folders existing afterwards (the profile is created with its parent when missing) and the process started. */
  function LaunchChrome(dirs: set<seq<string>>, version: string, exePath: seq<string>): (r: (set<seq<string>>, Spawn))
    ensures ProfileDir(version) in r.0 && dirs <= r.0
    ensures r.0 - dirs <= {["chrome-profiles"], ProfileDir(version)}
    ensures r.1 == Spawn(exePath, ProfileDir(version))
  {
    var profile := ProfileDir(version);
    var after := if profile in dirs then dirs else dirs + {["chrome-profiles"], profile};
    (after, Spawn(exePath, profile))
  }

  /** The build the launch prompt picks: `parseInt(answer.trim()) - 1` as an index into the list, if in range. */
  function LaunchChoice(answer: string, installed: seq<Installation>): (r: Option<Installation>)
    ensures r.Some? ==> r.value in installed
  {
    match ParseInt(Trim(answer))
    case Some(n) => if 1 <= n <= |installed| then Some(installed[n - 1]) else None
    case None => None
  }

  /** Typing the number shown beside a build, with any white space around it, picks that build. */
  lemma LaunchChoiceByNumber(pre: string, post: string, installed: seq<Installation>, i: nat)
    requires AllSpace(pre) && AllSpace(post) && i < |installed|
    ensures LaunchChoice(pre + NatToString(i + 1) + post, installed) == Some(installed[i])
  {
    var s := NatToString(i + 1);
    assert IsDecimalDigit(s[0]) && IsDecimalDigit(s[|s| - 1]);
    TrimPadded(pre, s, post);
    ParseIntNatToString(i + 1);
  }

  /** An answer picks a build only by naming its number: no number in 1..|installed| launches nothing. */
  lemma LaunchChoiceIff(answer: string, installed: seq<Installation>)
    ensures LaunchChoice(answer, installed).Some? <==>
      exists n :: ParseInt(Trim(answer)) == Some(n) && 1 <= n <= |installed|
  {
  }

  // ---------------------------------------------------------------------------
  // The download prompt

  /** What one comma-separated item asks for. */
  datatype Request = Fetch(version: string) | Ignore | Crash

  /** `latestVersions.find(v => v.major === item)`: the version of the first entry with that major. */
  function FindMajor(latest: seq<MajorVersion>, major: string): (r: Option<string>)
    ensures r.Some? <==> HasMajor(latest, major)
  {
    if latest == [] then None
    else if latest[0].major == major then Some(latest[0].version)
    else
      var r := FindMajor(latest[1..], major);
      assert HasMajor(latest, major) ==> HasMajor(latest[1..], major) by {
        if HasMajor(latest, major) {
          var e :| e in latest && e.major == major;
          assert e in latest[1..];
        }
      }
      assert HasMajor(latest[1..], major) ==> HasMajor(latest, major) by {
        if HasMajor(latest[1..], major) {
          var e :| e in latest[1..] && e.major == major;
          assert e in latest;
        }
      }
      r
  }

  /** With distinct majors, the entry found for a major is the one that has it. */
  lemma {:induction false} FindMajorDistinct(latest: seq<MajorVersion>, i: nat)
    requires DistinctMajors(latest) && i < |latest|
    ensures FindMajor(latest, latest[i].major) == Some(latest[i].version)
  {
    if i > 0 {
      var tail := latest[1..];
      assert latest[0].major != latest[i].major;
      assert DistinctMajors(tail) by {
        forall a, b | 0 <= a < b < |tail| ensures tail[a].major != tail[b].major {
          assert tail[a] == latest[a + 1] && tail[b] == latest[b + 1];
        }
      }
      assert tail[i - 1] == latest[i];
      FindMajorDistinct(tail, i - 1);
    }
  }

  /**
   * One trimmed item: a dotted text is a full version, fetched as typed; a
   * number 1..20 is a position in the list (past its end the script throws);
   * a number above 20 is a major, fetched as listed or else as typed;
   * anything else is skipped.
   */
  function ResolveItem(item: string, latest: seq<MajorVersion>): Request {
    if '.' in item then Fetch(item)
    else
      match ParseInt(item)
      case Some(n) =>
        if 1 <= n <= LatestCount then
          if n - 1 < |latest| then Fetch(latest[n - 1].version) else Crash
        else if n > LatestCount then
          match FindMajor(latest, item)
          case Some(version) => Fetch(version)
          case None => Fetch(item)
        else Ignore
      case None => Ignore
  }

  /** The downloads started, and whether the callback threw before reaching the last item. */
  datatype Outcome = Outcome(downloads: seq<string>, crashed: bool)

  /** `o` preceded by the downloads already started. */
  function After(started: seq<string>, o: Outcome): Outcome {
    Outcome(started + o.downloads, o.crashed)
  }

  /** The items handled in order by the `forEach`; a throw ends it. */
  function Plan(items: seq<string>, latest: seq<MajorVersion>): Outcome {
    if items == [] then Outcome([], false)
    else
      match ResolveItem(items[0], latest)
      case Fetch(version) => After([version], Plan(items[1..], latest))
      case Ignore => Plan(items[1..], latest)
      case Crash => Outcome([], true)
  }

  function TrimAll(parts: seq<string>): (r: seq<string>)
    ensures |r| == |parts|
  {
    if parts == [] then [] else [Trim(parts[0])] + TrimAll(parts[1..])
  }

  /** `answer.split(',').map(s => s.trim())` */
  function Items(answer: string): seq<string> {
    TrimAll(Split(answer, ','))
  }

  function Versions(latest: seq<MajorVersion>): (r: seq<string>)
    ensures |r| == |latest| && forall i :: 0 <= i < |r| ==> r[i] == latest[i].version
  {
    seq(|latest|, i requires 0 <= i < |latest| => latest[i].version)
  }

  /** What the download prompt does with an answer: `all` fetches the whole list, otherwise item by item. */
  function Answer(answer: string, latest: seq<MajorVersion>): Outcome {
    if ToLower(Trim(answer)) == "all" then Outcome(Versions(latest), false)
    else Plan(Items(answer), latest)
  }

  /** Handling the items from position `i` on, after the downloads of the first `i`. */
  lemma PlanStep(items: seq<string>, i: nat, latest: seq<MajorVersion>)
    requires i < |items|
    ensures Plan(items[i..], latest) ==
      match ResolveItem(items[i], latest)
      case Fetch(version) => After([version], Plan(items[i + 1..], latest))
      case Ignore => Plan(items[i + 1..], latest)
      case Crash => Outcome([], true)
  {
    assert items[i..][1..] == items[i + 1..];
  }

  /** `latestVersions.forEach(v => downloadChrome(v.version))` */
  method DownloadAll(latest: seq<MajorVersion>) returns (downloads: seq<string>)
    ensures downloads == Versions(latest)
  {
    downloads := [];
    for k := 0 to |latest|
      invariant downloads == Versions(latest)[..k]
    {
      downloads := downloads + [latest[k].version];
    }
    assert Versions(latest)[..|latest|] == Versions(latest);
  }

  /** `items.forEach(...)`: one `ResolveItem` per item, stopping at the first throw. */
  method DownloadItems(items: seq<string>, latest: seq<MajorVersion>) returns (downloads: seq<string>, crashed: bool)
    ensures Outcome(downloads, crashed) == Plan(items, latest)
  {
    downloads := [];
    crashed := false;
    var i := 0;
    while i < |items|
      invariant 0 <= i <= |items|
      invariant Plan(items, latest) == After(downloads, Plan(items[i..], latest))
    {
      PlanStep(items, i, latest);
      var request := ResolveItem(items[i], latest);
      match request {
        case Fetch(version) =>
          downloads := downloads + [version];
        case Ignore =>
        case Crash =>
          crashed := true;
          return;
      }
      i := i + 1;
    }
  }

  /** The prompt's callback, with `downloadChrome` recorded instead of run. */
  method HandleAnswer(answer: string, latest: seq<MajorVersion>) returns (downloads: seq<string>, crashed: bool)
    ensures Outcome(downloads, crashed) == Answer(answer, latest)
  {
    if ToLower(Trim(answer)) == "all" {
      downloads := DownloadAll(latest);
      crashed := false;
    } else {
      downloads, crashed := DownloadItems(Items(answer), latest);
    }
  }

  /** Download mode after the version list is fetched: the latest twenty majors, then the answer. */
  method DownloadMode(versions: seq<string>, answer: string) returns (downloads: seq<string>, crashed: bool)
    requires MajorsParse(versions)
    ensures Outcome(downloads, crashed) == Answer(answer, LatestMajors(versions, LatestCount))
  {
    var latest := GetLatestMajorVersions(versions, LatestCount);
    downloads, crashed := HandleAnswer(answer, latest);
  }

  // ---------------------------------------------------------------------------
  // What answers mean

  /** `all`, in any letter case and with white space around it, fetches every listed version in order. */
  lemma AnswerAll(pre: string, word: string, post: string, latest: seq<MajorVersion>)
    requires AllSpace(pre) && AllSpace(post) && ToLower(word) == "all"
    ensures Answer(pre + word + post, latest) == Outcome(Versions(latest), false)
  {
    assert ToLower(word)[0] == 'a' && ToLower(word)[2] == 'l';
    TrimPadded(pre, word, post);
  }

  /** An answer without a comma that is not `all` is a single item. */
  lemma AnswerSingle(answer: string, latest: seq<MajorVersion>)
    requires ',' !in answer && ToLower(Trim(answer)) != "all"
    ensures Answer(answer, latest) ==
      match ResolveItem(Trim(answer), latest)
      case Fetch(version) => Outcome([version], false)
      case Ignore => Outcome([], false)
      case Crash => Outcome([], true)
  {
    BeforeAbsent(answer, ',');
    assert Items(answer) == [Trim(answer)];
    PlanStep([Trim(answer)], 0, latest);
  }

  /** The decimal text of a number is its own trim, has no comma or dot, is not `all` and parses back. */
  lemma NumberText(n: nat)
    ensures var s := NatToString(n);
      && Trim(s) == s && ',' !in s && '.' !in s && ToLower(s) != "all" && ParseInt(s) == Some(n)
  {
    var s := NatToString(n);
    assert IsDecimalDigit(s[0]) && IsDecimalDigit(s[|s| - 1]);
    TrimUnpadded(s);
    assert ToLower(s)[0] == s[0];
    assert ',' !in s && '.' !in s by {
      forall k | 0 <= k < |s| ensures s[k] != ',' && s[k] != '.' {
        assert IsDecimalDigit(s[k]);
      }
    }
    ParseIntNatToString(n);
  }

  /** Typing the number shown beside a listed major fetches its version. */
  lemma AnswerByNumber(i: nat, latest: seq<MajorVersion>)
    requires i < |latest| && i < LatestCount
    ensures Answer(NatToString(i + 1), latest) == Outcome([latest[i].version], false)
  {
    NumberText(i + 1);
    AnswerSingle(NatToString(i + 1), latest);
  }

  /** A number from 1 to 20 beyond the end of the list makes the callback throw before anything is fetched. */
  lemma AnswerByNumberPastList(n: nat, latest: seq<MajorVersion>)
    requires |latest| < n <= LatestCount
    ensures Answer(NatToString(n), latest) == Outcome([], true)
  {
    NumberText(n);
    AnswerSingle(NatToString(n), latest);
  }

  /** Typing a major above 20 fetches the listed version of that major, or asks for the major as typed when it is not listed. */
  lemma AnswerByMajor(n: nat, latest: seq<MajorVersion>)
    requires n > LatestCount
    ensures var major := NatToString(n);
      Answer(major, latest) == Outcome([if HasMajor(latest, major) then FindMajor(latest, major).value else major], false)
  {
    NumberText(n);
    AnswerSingle(NatToString(n), latest);
  }

  /** In a list of distinct majors, typing a listed major above 20 fetches that entry's version. */
  lemma AnswerByListedMajor(n: nat, latest: seq<MajorVersion>, i: nat)
    requires n > LatestCount && DistinctMajors(latest) && i < |latest| && latest[i].major == NatToString(n)
    ensures Answer(NatToString(n), latest) == Outcome([latest[i].version], false)
  {
    AnswerByMajor(n, latest);
    FindMajorDistinct(latest, i);
    assert latest[i] in latest;
  }

  /** An item that is neither dotted nor a positive number (`0`, `-3`, `abc`, an empty line) fetches nothing and does not throw. */
  lemma AnswerIgnored(answer: string, latest: seq<MajorVersion>)
    requires ',' !in answer && '.' !in Trim(answer) && ToLower(Trim(answer)) != "all"
    requires ParseInt(Trim(answer)).None? || ParseInt(Trim(answer)).value <= 0
    ensures Answer(answer, latest) == Outcome([], false)
  {
    AnswerSingle(answer, latest);
  }

  /** A full version without commas or surrounding white space is fetched exactly as typed. */
  lemma AnswerByFullVersion(version: string, latest: seq<MajorVersion>)
    requires '.' in version && ',' !in version && Trim(version) == version
    ensures Answer(version, latest) == Outcome([version], false)
  {
    var k :| 0 <= k < |version| && version[k] == '.';
    assert ToLower(version)[k] == '.';
    AnswerSingle(version, latest);
  }

  /** Handling a list of items in two parts: the second part runs only when the first did not throw. */
  lemma {:induction false} PlanAppend(xs: seq<string>, ys: seq<string>, latest: seq<MajorVersion>)
    ensures Plan(xs + ys, latest) ==
      if Plan(xs, latest).crashed then Plan(xs, latest)
      else After(Plan(xs, latest).downloads, Plan(ys, latest))
  {
    if xs == [] {
      assert xs + ys == ys;
    } else {
      PlanStep(xs + ys, 0, latest);
      PlanStep(xs, 0, latest);
      assert (xs + ys)[1..] == xs[1..] + ys;
      PlanAppend(xs[1..], ys, latest);
    }
  }

  lemma {:induction false} TrimAllAppend(xs: seq<string>, ys: seq<string>)
    ensures TrimAll(xs + ys) == TrimAll(xs) + TrimAll(ys)
  {
    if xs != [] {
      assert (xs + ys)[1..] == xs[1..] + ys;
      TrimAllAppend(xs[1..], ys);
    } else {
      assert xs + ys == ys;
    }
  }

  /** The items of `a,b` are the items of `a` followed by those of `b`. */
  lemma ItemsAppend(a: string, b: string)
    ensures Items(a + [','] + b) == Items(a) + Items(b)
  {
    SplitAppend(a, ',', b);
    TrimAllAppend(Split(a, ','), Split(b, ','));
  }

  /** Trimming keeps an inner comma. */
  lemma CommaSurvivesTrim(a: string, b: string)
    ensures ',' in Trim(a + [','] + b)
  {
    var s := a + [','] + b;
    var t := TrimStart(s);
    TrimStartShape(s);
    var m := |s| - |t|;
    assert s[|a|] == ',' && !IsJsSpace(',');
    assert m <= |a| by {
      assert forall k :: 0 <= k < m ==> IsJsSpace(s[..m][k]);
    }
    assert t[|a| - m] == ',';
    var tt := TrimEnd(t);
    TrimEndShape(t);
    assert |a| - m < |tt| by {
      assert forall k :: 0 <= k < |t| - |tt| ==> IsJsSpace(t[|tt|..][k]);
    }
    assert tt[|a| - m] == ',';
  }

  /** An answer with a comma is never `all`: its two sides are handled one after the other. */
  lemma AnswerComma(a: string, b: string, latest: seq<MajorVersion>)
    ensures var first, second := Plan(Items(a), latest), Plan(Items(b), latest);
      Answer(a + [','] + b, latest) ==
        if first.crashed then first else After(first.downloads, second)
  {
    var s := a + [','] + b;
    ItemsAppend(a, b);
    PlanAppend(Items(a), Items(b), latest);
    CommaSurvivesTrim(a, b);
    var t := Trim(s);
    var k :| 0 <= k < |t| && t[k] == ',';
    assert ToLower(t)[k] == ',';
  }

  lemma {:induction false} FindMajorListed(latest: seq<MajorVersion>, major: string)
    requires FindMajor(latest, major).Some?
    ensures exists e :: e in latest && e.version == FindMajor(latest, major).value && e.major == major
  {
    if latest[0].major != major {
      FindMajorListed(latest[1..], major);
      var e :| e in latest[1..] && e.version == FindMajor(latest[1..], major).value && e.major == major;
      assert e in latest;
    }
  }

  /** An item is fetched as a listed version or as typed. */
  lemma ResolveItemSound(item: string, latest: seq<MajorVersion>)
    ensures ResolveItem(item, latest).Fetch? ==>
      ResolveItem(item, latest).version == item || exists e :: e in latest && e.version == ResolveItem(item, latest).version
  {
    var r := ResolveItem(item, latest);
    if r.Fetch? && r.version != item {
      var n := ParseInt(item).value;
      if n <= LatestCount {
        assert latest[n - 1] in latest;
      } else {
        FindMajorListed(latest, item);
      }
    }
  }

  /** Everything fetched is a listed version or an item of the answer. */
  lemma {:induction false} PlanSound(items: seq<string>, latest: seq<MajorVersion>)
    ensures forall d :: d in Plan(items, latest).downloads ==>
      d in items || exists e :: e in latest && e.version == d
  {
    if items != [] {
      PlanStep(items, 0, latest);
      PlanSound(items[1..], latest);
      ResolveItemSound(items[0], latest);
      assert items == [items[0]] + items[1..];
    }
  }

  /** With a full list of twenty, no item makes the callback throw. */
  lemma {:induction false} PlanNoCrash(items: seq<string>, latest: seq<MajorVersion>)
    requires |latest| >= LatestCount
    ensures !Plan(items, latest).crashed
  {
    if items != [] {
      PlanStep(items, 0, latest);
      PlanNoCrash(items[1..], latest);
    }
  }

  lemma AnswerNoCrash(answer: string, latest: seq<MajorVersion>)
    requires |latest| >= LatestCount
    ensures !Answer(answer, latest).crashed
  {
    PlanNoCrash(Items(answer), latest);
  }
}
