/**
 * The attribute pools and the profile synthesizer of fingerprint-browser.js
 * (`data`, `pick`, `rand`, `generateRandomFingerprint`).
 *
 * Every `Math.random()` the synthesizer calls is an input here: a `Random`,
 * the exact fraction num / den, which `InUnit` keeps in [0, 1). The draws a
 * call makes are bundled in a `Draws` record, one field per call, in the
 * order the source makes them.
 */
module Fingerprint {
  import opened Wrappers
  import opened JsStrings

  /** One joint pool record: the OS fragment of the user agent and the matching `navigator.platform`. */
  datatype Platform = Platform(os: string, platform: string)

  datatype Resolution = Resolution(width: int, height: int)

  /** The unmasked WebGL vendor and renderer strings. */
  datatype Gpu = Gpu(vendor: string, renderer: string)

  /** The object `generateRandomFingerprint` returns. */
  datatype Profile = Profile(
    userAgent: string,
    viewport: Resolution,
    screen: Resolution,
    locale: string,
    timezone: string,
    platform: string,
    webgl: Gpu,
    hardwareConcurrency: int,
    deviceMemory: int,
    colorDepth: int,
    canvasNoise: int)

  // ---------------------------------------------------------------------------
  // The pools (`data`)

  const ChromeVersions: seq<string> := ["120", "121", "122", "123", "124", "125", "130", "135", "140", "143"]

  const Windows10: string := "Windows NT 10.0; Win64; x64"
  const Windows11: string := "Windows NT 11.0; Win64; x64"
  const MacOs10: string := "Macintosh; Intel Mac OS X 10_15_7"
  const MacOs11: string := "Macintosh; Intel Mac OS X 11_6_0"
  const Linux: string := "X11; Linux x86_64"

  const Platforms: seq<Platform> := [
    Platform(Windows10, "Win32"),
    Platform(Windows11, "Win32"),
    Platform(MacOs10, "MacIntel"),
    Platform(MacOs11, "MacIntel"),
    Platform(Linux, "Linux x86_64")
  ]

  const Resolutions: seq<Resolution> := [
    Resolution(1920, 1080), Resolution(1366, 768), Resolution(1536, 864),
    Resolution(1440, 900), Resolution(1280, 720), Resolution(2560, 1440)
  ]

  const Locales: seq<string> := ["zh-CN", "en-US", "en-GB", "ja-JP", "ko-KR", "de-DE", "fr-FR"]

  const Timezones: seq<string> := [
    "Asia/Shanghai", "Asia/Tokyo", "America/New_York", "America/Los_Angeles", "Europe/London", "Europe/Paris"
  ]

  const WebGlVendors: seq<Gpu> := [
    Gpu("Google Inc. (NVIDIA)", "ANGLE (NVIDIA GeForce RTX 3060 Ti)"),
    Gpu("Google Inc. (NVIDIA)", "ANGLE (NVIDIA GeForce GTX 1660)"),
    Gpu("Google Inc. (AMD)", "ANGLE (AMD Radeon RX 6700 XT)"),
    Gpu("Google Inc. (Intel)", "ANGLE (Intel UHD Graphics 630)"),
    Gpu("Apple Inc.", "Apple M1"),
    Gpu("Apple Inc.", "Apple M2")
  ]

  const CpuCores: seq<int> := [4, 6, 8, 10, 12, 16]

  const Memory: seq<int> := [4, 8, 16, 32]

  /** The inline pool of `pick([24, 32])`. */
  const ColorDepths: seq<int> := [24, 32]

  // ---------------------------------------------------------------------------
  // `pick` and `rand`

  /** A value of `Math.random()`: the fraction num / den. */
  datatype Random = Random(num: nat, den: nat)

  predicate InUnit(u: Random) {
    u.num < u.den
  }

  /** `Math.floor(u * n)` (Dafny's division by a positive divisor rounds down). */
  function FloorTimes(u: Random, n: int): (r: int)
    requires InUnit(u)
    ensures 0 < n ==> 0 <= r < n
    ensures n <= 0 ==> n <= r <= 0
  {
    FloorTimesBounds(u.num, u.den, n);
    (u.num * n) / u.den
  }

  lemma FloorTimesBounds(num: nat, den: nat, n: int)
    requires num < den
    ensures 0 < n ==> 0 <= (num * n) / den < n
    ensures n <= 0 ==> n <= (num * n) / den <= 0
  {
    var q := (num * n) / den;
    assert q * den <= num * n < q * den + den;
    if 0 < n {
      assert num * n < den * n;
      MulCancelLess(q, n, den);
      MulCancelLess(-1, q, den);
    } else {
      assert den * n <= num * n <= 0;
      MulCancelLess(n, q + 1, den);
      MulCancelLess(q, 1, den);
    }
  }

  lemma MulCancelLess(x: int, y: int, n: int)
    requires n > 0 && x * n < y * n
    ensures x < y
  {
    assert (y - x) * n == y * n - x * n;
  }

  lemma MulDivCancel(i: int, n: int)
    requires n > 0
    ensures (i * n) / n == i
  {
    var q, r := (i * n) / n, (i * n) % n;
    assert i * n == q * n + r && 0 <= r < n;
    MulCancelLess(q, i + 1, n);
    MulCancelLess(i, q + 1, n);
  }

  /** `pick(arr)`: the element at index floor(u * arr.length). */
  function Pick<T>(arr: seq<T>, u: Random): (r: T)
    requires |arr| > 0 && InUnit(u)
    ensures r in arr
  {
    arr[FloorTimes(u, |arr|)]
  }

  /** `rand(min, max)`: floor(u * (max - min + 1)) + min. */
  function Rand(min: int, max: int, u: Random): (r: int)
    requires InUnit(u)
    ensures min <= max ==> min <= r <= max
  {
    FloorTimes(u, max - min + 1) + min
  }

  /** Every element of a pool is what `pick` returns for some value of `Math.random()`. */
  lemma PickReaches<T>(arr: seq<T>, x: T) returns (u: Random)
    requires x in arr
    ensures InUnit(u) && Pick(arr, u) == x
  {
    var i :| 0 <= i < |arr| && arr[i] == x;
    u := Random(i, |arr|);
    MulDivCancel(i, |arr|);
  }

  /** Every value of [min, max] is what `rand` returns for some value of `Math.random()`. */
  lemma RandReaches(min: int, max: int, x: int) returns (u: Random)
    requires min <= x <= max
    ensures InUnit(u) && Rand(min, max, u) == x
  {
    var n := max - min + 1;
    u := Random(x - min, n);
    MulDivCancel(x - min, n);
  }

  // ---------------------------------------------------------------------------
  // `generateRandomFingerprint`

  /** The ten `Math.random()` values one call consumes, in the order the source draws them. */
  datatype Draws = Draws(
    platform: Random, resolution: Random, webgl: Random, chromeVersion: Random,
    locale: Random, timezone: Random, cpuCores: Random, memory: Random,
    colorDepth: Random, canvasNoise: Random)

  predicate ValidDraws(d: Draws) {
    && InUnit(d.platform) && InUnit(d.resolution) && InUnit(d.webgl) && InUnit(d.chromeVersion)
    && InUnit(d.locale) && InUnit(d.timezone) && InUnit(d.cpuCores) && InUnit(d.memory)
    && InUnit(d.colorDepth) && InUnit(d.canvasNoise)
  }

  const UaPrefix: string := "Mozilla/5.0 ("
  const UaEngine: string := " AppleWebKit/537.36 (KHTML, like Gecko) Chrome/"
  const UaSuffix: string := ".0.0.0 Safari/537.36"

  /** The user-agent template filled with an OS fragment and a major version. */
  function UserAgent(os: string, chromeVersion: string): string {
    UaPrefix + os + ")" + UaEngine + chromeVersion + UaSuffix
  }

  function GenerateRandomFingerprint(d: Draws): (fp: Profile)
    requires ValidDraws(d)
    ensures Plausible(fp)
  {
    var platform := Pick(Platforms, d.platform);
    var resolution := Pick(Resolutions, d.resolution);
    var webgl := Pick(WebGlVendors, d.webgl);
    var chromeVersion := Pick(ChromeVersions, d.chromeVersion);
    Profile(
      UserAgent(platform.os, chromeVersion),
      resolution,
      resolution,
      Pick(Locales, d.locale),
      Pick(Timezones, d.timezone),
      platform.platform,
      webgl,
      Pick(CpuCores, d.cpuCores),
      Pick(Memory, d.memory),
      Pick(ColorDepths, d.colorDepth),
      Rand(1, 10, d.canvasNoise))
  }

  /**
   * The profiles the synthesizer can produce: platform token and user-agent OS
   * fragment from ONE pool record, the user agent the fixed template over a
   * pooled version, viewport and screen one pooled resolution, every other
   * field a member of its pool, and the canvas noise in [1, 10].
   */
  ghost predicate Plausible(fp: Profile) {
    && (exists p, v :: p in Platforms && v in ChromeVersions
          && fp.platform == p.platform && fp.userAgent == UserAgent(p.os, v))
    && fp.viewport == fp.screen && fp.screen in Resolutions
    && fp.locale in Locales
    && fp.timezone in Timezones
    && fp.webgl in WebGlVendors
    && fp.hardwareConcurrency in CpuCores
    && fp.deviceMemory in Memory
    && fp.colorDepth in ColorDepths
    && 1 <= fp.canvasNoise <= 10
  }

  /** Conversely, every plausible profile is produced by some sequence of draws. */
  lemma PlausibleIsReachable(fp: Profile) returns (d: Draws)
    requires Plausible(fp)
    ensures ValidDraws(d) && GenerateRandomFingerprint(d) == fp
  {
    var p, v :| p in Platforms && v in ChromeVersions
      && fp.platform == p.platform && fp.userAgent == UserAgent(p.os, v);
    var up := PickReaches(Platforms, p);
    var ur := PickReaches(Resolutions, fp.screen);
    var uw := PickReaches(WebGlVendors, fp.webgl);
    var uv := PickReaches(ChromeVersions, v);
    var ul := PickReaches(Locales, fp.locale);
    var ut := PickReaches(Timezones, fp.timezone);
    var uc := PickReaches(CpuCores, fp.hardwareConcurrency);
    var um := PickReaches(Memory, fp.deviceMemory);
    var ud := PickReaches(ColorDepths, fp.colorDepth);
    var un := RandReaches(1, 10, fp.canvasNoise);
    d := Draws(up, ur, uw, uv, ul, ut, uc, um, ud, un);
  }

  // ---------------------------------------------------------------------------
  // Platform coherence

  /** The OS fragment of a user agent: the text between "Mozilla/5.0 (" and the next ")". */
  function OsFragment(ua: string): Option<string> {
    if StartsWith(ua, UaPrefix) then Some(Before(ua[|UaPrefix|..], ')')) else None
  }

  /** The user agent built from an OS fragment without ")" gives that fragment back. */
  lemma OsFragmentOfUserAgent(os: string, chromeVersion: string)
    requires ')' !in os
    ensures OsFragment(UserAgent(os, chromeVersion)) == Some(os)
  {
    var ua := UserAgent(os, chromeVersion);
    var tail := UaEngine + chromeVersion + UaSuffix;
    assert ua == UaPrefix + (os + [')'] + tail);
    assert ua[..|UaPrefix|] == UaPrefix;
    assert ua[|UaPrefix|..] == os + [')'] + tail;
    BeforeFirst(os, ')', tail);
  }

  /** The `navigator.platform` token an OS fragment belongs with. */
  function FamilyOf(os: string): Option<string> {
    if StartsWith(os, "Windows") then Some("Win32")
    else if StartsWith(os, "Macintosh") then Some("MacIntel")
    else if StartsWith(os, "X11; Linux") then Some("Linux x86_64")
    else None
  }

  /** A profile whose platform token belongs with the OS its user agent claims. */
  predicate Coherent(fp: Profile) {
    match OsFragment(fp.userAgent)
    case Some(os) => FamilyOf(os) == Some(fp.platform)
    case None => false
  }

  lemma Windows10Family() ensures FamilyOf(Windows10) == Some("Win32") && ')' !in Windows10 {
    assert Windows10[..7] == "Windows";
  }

  lemma Windows11Family() ensures FamilyOf(Windows11) == Some("Win32") && ')' !in Windows11 {
    assert Windows11[..7] == "Windows";
  }

  lemma MacOs10Family() ensures FamilyOf(MacOs10) == Some("MacIntel") && ')' !in MacOs10 {
    assert MacOs10[0] == 'M';
    assert MacOs10[..9] == "Macintosh";
  }

  lemma MacOs11Family() ensures FamilyOf(MacOs11) == Some("MacIntel") && ')' !in MacOs11 {
    assert MacOs11[0] == 'M';
    assert MacOs11[..9] == "Macintosh";
  }

  lemma LinuxFamily() ensures FamilyOf(Linux) == Some("Linux x86_64") && ')' !in Linux {
    assert Linux[0] == 'X';
    assert Linux[..10] == "X11; Linux";
  }

  /**
   * Each joint pool record pairs an OS fragment with its own family's
   * platform token, and no OS fragment contains ")", so the user agent's
   * parenthesis closes it.
   */
  lemma PlatformPoolCoherent(i: nat)
    requires i < |Platforms|
    ensures FamilyOf(Platforms[i].os) == Some(Platforms[i].platform)
    ensures ')' !in Platforms[i].os
  {
    if i == 0 {
      Windows10Family();
    } else if i == 1 {
      Windows11Family();
    } else if i == 2 {
      MacOs10Family();
    } else if i == 3 {
      MacOs11Family();
    } else {
      LinuxFamily();
    }
  }

  /** No plausible profile pairs, say, Win32 with a Mac OS string. */
  lemma PlausibleIsCoherent(fp: Profile)
    requires Plausible(fp)
    ensures Coherent(fp)
  {
    var p, v :| p in Platforms && v in ChromeVersions
      && fp.platform == p.platform && fp.userAgent == UserAgent(p.os, v);
    var i :| 0 <= i < |Platforms| && Platforms[i] == p;
    PlatformPoolCoherent(i);
    OsFragmentOfUserAgent(p.os, v);
  }

  /** So every generated profile is coherent. */
  lemma GeneratedIsCoherent(d: Draws)
    requires ValidDraws(d)
    ensures Coherent(GenerateRandomFingerprint(d))
  {
    PlausibleIsCoherent(GenerateRandomFingerprint(d));
  }

  /** The GPU is drawn independently of the platform: an Apple GPU can come with Win32. */
  lemma GpuNotTiedToPlatform()
    ensures exists d :: ValidDraws(d) && GenerateRandomFingerprint(d).platform == "Win32"
                        && GenerateRandomFingerprint(d).webgl.vendor == "Apple Inc."
  {
    var z := Random(0, 1);
    var d := Draws(z, z, Random(4, 6), z, z, z, z, z, z, z);
    assert GenerateRandomFingerprint(d).platform == Platforms[0].platform;
    assert GenerateRandomFingerprint(d).webgl == WebGlVendors[4];
  }
}
