# Fingerprint browser and Chrome version manager, modelled in Dafny

The repository has two Node.js programs.

- `fingerprint-browser.js` draws a random browser profile from fixed pools:
  user agent, screen, locale, time zone, `navigator.platform`, GPU strings,
  core count, memory, colour depth and canvas noise. It then builds an init
  script that makes a page see that profile. The script defines getters on
  `navigator` and `screen`. It wraps WebGL `getParameter` so the
  unmasked-debug codes return the profile's GPU. It adds a noise pre-pass to
  canvas `toDataURL`, hides `navigator.webdriver`, presents a fixed plugin
  list, and clears `offerToReceiveAudio` in `RTCPeerConnection.createOffer`.
- `chromium-downloader.js` is a command-line tool for Chrome for Testing
  builds:
  - in download mode it reduces the known-good version list to the newest
    version of each of the latest twenty majors, then reads an answer such
    as `1,3,143`, `142.0.7444.176` or `all`;
  - in list/launch mode it lists the builds under `chrome/win64-<version>`;
  - it launches a build with a profile folder shared by its major.

The Dafny project has six modules:

| file | module | what it holds |
|---|---|---|
| `js_strings.dfy` | `Wrappers`, `JsStrings` | `Option`; the JavaScript string operations the programs use: `trim`, ASCII `toLowerCase`, `split`/`join`, `startsWith`, `parseInt` without radix (sign, `0x`, leading digits, NaN as `None`) |
| `js_numbers.dfy` | `JsNumbers` | ToInt32, bitwise xor, and the clamping of a `Uint8ClampedArray` store |
| `fingerprint.dfy` | `Fingerprint` | the pools, `pick`, `rand`, `generateRandomFingerprint`, with every `Math.random()` value as an input |
| `fingerprint_script.dfy` | `FingerprintScript` | what the init script does once it runs: getters, how far the script gets when a WebGL class is missing, `getParameter`, the canvas pre-pass (an imperative method over the bitmap array), and `createOffer` (a method over a mutable options object) |
| `chrome_versions.dfy` | `ChromeVersions` | `getLatestMajorVersions`: a reverse loop that keeps the last version of each major, a stable descending sort by `parseInt(major)`, and the first `count` entries |
| `chrome_cli.dfy` | `ChromeCli` | mode dispatch, installed builds, the launch prompt, `launchChrome`, and the download prompt's answer handling (a method over the items, with the throw on a number past the list) |

Decisions worth knowing:

- Math.random. Every `Math.random()` value is an exact fraction in [0, 1).
  `Math.floor(u * n)` is computed exactly.
- Text operations. `toLowerCase` is modelled on ASCII letters.
- Paths. A path is a list of components relative to the working directory.
- File system. `fs.existsSync` and `fs.readdirSync` are parameters: a
  predicate on paths, and an optional folder listing.
- Downloads. `downloadChrome` is recorded as the list of versions it is
  called with, in order.
- Prompt errors. `latestVersions[num - 1].version` throws past the end of the
  list. In the model that throw is the `crashed` flag of an `Outcome`, and it
  stops the remaining items.
- Script order. The script stops at its first missing WebGL class.
  `InstalledHooks` states that. In a page without `WebGL2RenderingContext`,
  `navigator.webdriver` therefore stays visible (`WebdriverExposedWithoutWebGl2`).
- Noise across exports. A bitmap exported twice is perturbed twice, because
  the pre-pass writes back to the canvas. `SecondExportCanDriftPastNoise`
  shows a byte moving further than the noise over two exports; the bound of
  `PerturbedClose` holds per export, not across exports.

## Model

| member | source | states |
|---|---|---|
| Fingerprint.Pick | fingerprint-browser.js:3 | `pick(arr)` returns an element of `arr` for every `Math.random()` value |
| Fingerprint.Rand | fingerprint-browser.js:4 | `rand(min, max)` lies in [min, max] whenever min <= max |
| Fingerprint.PickReaches | fingerprint-browser.js:3 | every pool element is picked for some `Math.random()` value |
| Fingerprint.RandReaches | fingerprint-browser.js:4 | every integer of [min, max] is drawn for some `Math.random()` value |
| Fingerprint.GenerateRandomFingerprint | fingerprint-browser.js:37-55 | every profile it returns is plausible: platform token and UA OS fragment come from one pool record, the UA is the template over a pooled Chrome major, viewport equals screen and is a pooled resolution, the other fields are pool members, and canvas noise is in [1, 10] |
| Fingerprint.PlausibleIsReachable | fingerprint-browser.js:37-55 | conversely, every plausible profile is returned for some sequence of draws |
| Fingerprint.OsFragmentOfUserAgent | fingerprint-browser.js:43 | the OS fragment read back from a generated user agent is the one put in, when it contains no `)` |
| Fingerprint.PlatformPoolCoherent | fingerprint-browser.js:8-14 | each platform record pairs a Windows, Macintosh or Linux OS string with its own family's token (Win32, MacIntel, Linux x86_64), and no OS string contains `)` |
| Fingerprint.PlausibleIsCoherent | fingerprint-browser.js:38-48 | the platform token of a plausible profile matches the OS its user agent claims |
| Fingerprint.GeneratedIsCoherent | fingerprint-browser.js:37-55 | every generated profile is coherent in that sense |
| Fingerprint.GpuNotTiedToPlatform | fingerprint-browser.js:38-40 | the GPU is drawn independently: some draw pairs Win32 with an Apple GPU |
| FingerprintScript.StaticGettersDistinct | fingerprint-browser.js:59-67 | no two getter definitions of the script target the same property |
| FingerprintScript.ScreenGetters | fingerprint-browser.js:62-67 | the screen reports the profile's width and height for both full and available size, and its colour depth for both colour and pixel depth |
| FingerprintScript.NavigatorGetters | fingerprint-browser.js:59-61 | the navigator reports the profile's platform, core count and memory, `webdriver` undefined and the three fixed plugins |
| FingerprintScript.OverriddenProperties | fingerprint-browser.js:59-67 | a property is overridden if and only if it is one of the five navigator or six screen properties the script defines |
| FingerprintScript.ReadDefined | fingerprint-browser.js:59-67 | with definitions on distinct properties, each property reads back the value defined for it |
| FingerprintScript.ReadOnlyDefined | fingerprint-browser.js:59-67 | a property reads as overridden only if some definition targets it |
| FingerprintScript.InstalledHooksIff | fingerprint-browser.js:69-128 | the getters come first; the canvas hook and the webdriver/plugin getters are installed if and only if both WebGL classes exist; the audio hook also needs an audio context class, and the createOffer hook a peer-connection class |
| FingerprintScript.DefinedGettersComplete | fingerprint-browser.js:59-119 | with both WebGL classes present, every getter of the script is in force |
| FingerprintScript.WebdriverExposedWithoutWebGl2 | fingerprint-browser.js:75 | without `WebGL2RenderingContext` the script stops at that line: the platform is overridden but `navigator.webdriver` is left to the browser |
| FingerprintScript.GetParameterHooked | fingerprint-browser.js:69-80 | on either context class, codes 37445 and 37446 answer the vendor and renderer of the profile the script was built from, and every other parameter reaches that class's own original |
| FingerprintScript.GetParameterHooksIdempotent | fingerprint-browser.js:69-80 | installing the hooks a second time changes no answer |
| FingerprintScript.NoiseKeyRange | fingerprint-browser.js:90 | `(Math.random() * noise) \| 0` lies in [0, noise) for noise in [1, 2^31] |
| FingerprintScript.ToDataUrl | fingerprint-browser.js:84-96 | when there is a 2D context, the canvas is non-empty and the pixels are readable, the bitmap becomes the perturbed bitmap; otherwise it is unchanged; the original export then runs on the current bitmap with the same arguments (bytes taken as stored exactly, which holds for opaque pixels) |
| FingerprintScript.PerturbedKeepsOtherChannels | fingerprint-browser.js:89-91 | only the first byte of each pixel (red) can change |
| FingerprintScript.PerturbedClose | fingerprint-browser.js:89-91 | for noise in [1, 2^31], each byte stays strictly within `noise` of its old value, clamping included |
| FingerprintScript.PerturbedIsXor | fingerprint-browser.js:89-91 | for noise in [0, 256] nothing is clamped: each red byte is its old value xor a key below the noise |
| FingerprintScript.PerturbedSelfInverse | fingerprint-browser.js:89-91 | for noise in [0, 256], the pre-pass applied twice with the same random values restores the bitmap |
| FingerprintScript.SecondExportCanDriftPastNoise | fingerprint-browser.js:89-92 | the pre-pass writes back, so two exports can move a byte further than the noise: 0 becomes 15 with noise 10 |
| FingerprintScript.SmallNoiseBounded | fingerprint-browser.js:53 | with a generated noise in [1, 10], each byte moves by less than 10 in one export, and the same draws undo the pass |
| FingerprintScript.GeneratedCanvasNoise | fingerprint-browser.js:53 | the script of every generated profile carries a canvas noise in [1, 10], so one export with it moves each red byte by less than 10 and the same draws undo it |
| FingerprintScript.Sanitized | fingerprint-browser.js:124 | after sanitisation `offerToReceiveAudio` is falsy; a truthy value becomes `false`; a falsy one and every other option are left alone |
| FingerprintScript.SanitizedIdempotent | fingerprint-browser.js:124 | sanitising twice is sanitising once |
| FingerprintScript.CreateOffer | fingerprint-browser.js:123-126 | when options are passed, the object is sanitised in place; the original `createOffer` then receives the same (now sanitised) options |
| JsNumbers.ToInt32 | fingerprint-browser.js:90 | the `\| 0` conversion lands in [-2^31, 2^31), agrees with its input modulo 2^32, and is the identity inside that range |
| JsNumbers.ClampedXor | fingerprint-browser.js:90 | `data[i] ^= k` on a clamped byte array stores a byte |
| JsNumbers.ClampedXorClose | fingerprint-browser.js:90 | for a key in [0, 2^31) the stored byte is within the key of the old byte |
| JsNumbers.ClampedXorSelfInverse | fingerprint-browser.js:90 | with a key below 256, the same key applied twice restores the byte |
| JsNumbers.XorSelfInverse | fingerprint-browser.js:90 | xor with the same key twice gives the original number |
| JsNumbers.XorDistance | fingerprint-browser.js:90 | xor with `b` moves a number by at most `b` |
| JsStrings.TrimPadded | chromium-downloader.js:139 | `trim` removes white space padding around a core that starts and ends with a non-space |
| JsStrings.Before | chromium-downloader.js:33 | `split('.')[0]` is the prefix before the first `.` (all of the text when there is none) |
| JsStrings.SplitJoin | chromium-downloader.js:166 | splitting the separator-joined parts gives back the parts, when none of them contains the separator |
| JsStrings.JoinSplit | chromium-downloader.js:166 | joining the parts of a split with the separator gives back the text |
| JsStrings.SplitAppend | chromium-downloader.js:166 | the parts of `a,b` are the parts of `a` followed by those of `b` |
| JsStrings.ParseIntNatToString | chromium-downloader.js:139 | `parseInt` of a number's decimal text gives the number |
| ChromeVersions.MajorMapChoosesLast | chromium-downloader.js:30-37 | the map has one entry per major occurring in the list, and each entry holds the last version in the list with that major |
| ChromeVersions.SortDescendingCorrect | chromium-downloader.js:39 | the sort gives a permutation of the entries, in descending order of `parseInt(major)` |
| ChromeVersions.GetLatestMajorVersions | chromium-downloader.js:29-42 | the reverse loop and the sort-and-slice compute the specified list: the first `count` entries of the map sorted by descending major |
| ChromeVersions.LatestMajorsOrdered | chromium-downloader.js:38-41 | the result has at most `count` entries with distinct majors, and no entry has a higher `parseInt(major)` than the one before it |
| ChromeVersions.LatestMajorsChooseLast | chromium-downloader.js:31-41 | each entry of the result holds the last version of its major in the input |
| ChromeVersions.LatestMajorsComplete | chromium-downloader.js:38-41 | a major of the input is missing from the result only when the result is full and every listed major is at least as new as the missing one |
| ChromeCli.ModeOfFirstArgument | chromium-downloader.js:105-147 | only the first argument picks the mode; anything but help, -h, --help, list, launch or run (or no argument) downloads |
| ChromeCli.FolderVersionIff | chromium-downloader.js:59-61 | a folder name yields version `v` if and only if it is `win64-` followed by `v` |
| ChromeCli.InstallationsIff | chromium-downloader.js:56-66 | a build is listed if and only if the `chrome` folder has an entry `win64-<version>` whose `chrome-win64/chrome.exe` exists |
| ChromeCli.InstallationsBound | chromium-downloader.js:58-65 | there are no more builds than folder entries |
| ChromeCli.ProfileDirIff | chromium-downloader.js:69 | two versions share a profile folder if and only if they have the same major |
| ChromeCli.LaunchChrome | chromium-downloader.js:68-76 | afterwards the profile folder exists, only it and its parent may be new, and the build's executable is spawned with that folder as user data directory |
| ChromeCli.LaunchChoice | chromium-downloader.js:139-142 | the launch prompt only ever picks a listed build |
| ChromeCli.LaunchChoiceByNumber | chromium-downloader.js:137-142 | typing the number shown beside a build, in any white space, launches that build |
| ChromeCli.LaunchChoiceIff | chromium-downloader.js:139-140 | something launches if and only if the trimmed answer parses to a number in 1..length |
| ChromeCli.FindMajor | chromium-downloader.js:175 | `find` succeeds if and only if some listed entry has that major |
| ChromeCli.FindMajorDistinct | chromium-downloader.js:175 | with distinct majors, `find` returns the version of the entry with that major |
| ChromeCli.HandleAnswer | chromium-downloader.js:157-179 | the callback's downloads and any throw are those of the answer's specification: `all` fetches the list, otherwise each item in order |
| ChromeCli.DownloadMode | chromium-downloader.js:147-179 | download mode fetches what the answer means against the latest twenty majors of the fetched versions |
| ChromeCli.AnswerAll | chromium-downloader.js:159-164 | `all` in any letter case, with white space around it, fetches every listed version in order |
| ChromeCli.AnswerByNumber | chromium-downloader.js:171-173 | typing the position of a listed entry fetches that entry's version |
| ChromeCli.AnswerByNumberPastList | chromium-downloader.js:172-173 | a number in 1..20 past the end of a shorter list throws before anything is fetched |
| ChromeCli.AnswerByMajor | chromium-downloader.js:174-177 | a number above 20 fetches the listed version of that major, or the major as typed when it is not listed |
| ChromeCli.AnswerByListedMajor | chromium-downloader.js:174-176 | with distinct majors, typing a listed major above 20 fetches that entry's version |
| ChromeCli.AnswerIgnored | chromium-downloader.js:171-177 | an item that is neither dotted nor a positive number (`0`, `-3`, `abc`, an empty line) fetches nothing and does not throw |
| ChromeCli.AnswerByFullVersion | chromium-downloader.js:167-169 | a full version with a dot is fetched exactly as typed |
| ChromeCli.AnswerComma | chromium-downloader.js:166-178 | an answer with a comma is never `all`: the part after the comma runs after the part before it, unless that part threw |
| ChromeCli.PlanAppend | chromium-downloader.js:166-178 | the items are handled in order, and a throw ends the `forEach` |
| ChromeCli.PlanSound | chromium-downloader.js:166-178 | everything fetched is a listed version or an item typed in the answer |
| ChromeCli.AnswerNoCrash | chromium-downloader.js:172-173 | with the full list of twenty, no answer makes the callback throw |

## Left out

- The audio hook's effect (fingerprint-browser.js:98-110). It adds floating-point jitter below 0.0001 to `getFloatFrequencyData`. Floating point is not modelled; only whether the hook is installed is.
- `launchBrowser` (fingerprint-browser.js:132-174). It starts Playwright, sets up the context, navigates to a page and prints. All of that is I/O.
- The init script as text. `createFingerprintScript` builds JavaScript source by interpolation; the model states what that source does once run. Quoting problems in interpolated strings cannot arise with the pool values.
- `Object.defineProperty` details. Configurability, enumerability, and getters that return a fresh plugin array on each read are not modelled; a getter is the value it returns.
- `getContext('2d')` side effect. Calling it on a canvas that has no context yet creates one; the model takes ahead of time whether a 2D context is available.
- ToDataUrl: `getImageData` and `putImageData` copy the bitmap out and back. The model changes the bitmap array in place and assumes `putImageData` stores the bytes exactly. That holds for fully opaque pixels only: the browser keeps the canvas with premultiplied alpha, so for a transparent pixel the red change is dropped and for a half-transparent one it may be rounded. `ToDataUrl`'s ensures overstates what is stored and exported for such pixels.
- Tainted canvases. For a canvas tainted by cross-origin data (`readable` false) the original `toDataURL` throws a SecurityError; the `original` parameter of `ToDataUrl` is total and does not express that throw.
- `createOffer` arguments. The legacy callback form and non-object truthy options are not modelled. The options are either absent (`null`) or an object.
- `fetchVersions` (chromium-downloader.js:12-27). It is an HTTPS request with JSON parsing. The version list is an input of `DownloadMode`.
- `downloadChrome` (chromium-downloader.js:44-54). It runs `npx @puppeteer/browsers install` and prints. A download is recorded as the version it is called with; its success flag is unused by the source.
- `showHelp` and the list mode's printing (chromium-downloader.js:78-124). Both are console output only; the list they print is `InstalledVersions`.
- Console output, `readline`, `spawn` and `process.argv`. The prompt answer and the arguments are parameters. `spawn` is recorded as a `Spawn` value.
- Absolute paths. `path.join(process.cwd(), …)` is modelled as a list of components relative to the working directory.
- `Math.random` output. Values are exact fractions; IEEE rounding of `Math.random() * n` is not modelled.
- Number precision. Integers are unbounded, so majors and parsed numbers above 2^53 are not rounded as JavaScript numbers would be.
- Non-ASCII `toLowerCase`. Case mapping is modelled on ASCII letters; other characters are kept.
- GetLatestMajorVersions: requires every version's major to parse as a number. The source also accepts majors that parse to NaN, but then its sort comparator returns NaN and the resulting order is up to the engine.
- DownloadMode: inherits the requirement of `GetLatestMajorVersions` that every major of the fetched version list parses as a number, for the same reason.
- Tie order. Two majors with different text but the same number (`"07"` and `"7"`) are both kept. The model orders them by a stable insertion sort, so they stay in map insertion order, as under a stable `Array.prototype.sort`. An engine with an unstable sort could swap them.
