/**
 * What the init script of createFingerprintScript (fingerprint-browser.js)
 * does once it runs in a page, modelled as behaviour rather than as text:
 * the getters it defines on `navigator` and `screen`, the wrapped WebGL
 * `getParameter` of both context classes, the canvas `toDataURL` pre-pass
 * and the `createOffer` option sanitisation.
 */
module FingerprintScript {
  import opened Wrappers
  import opened JsNumbers
  import opened Fingerprint

  datatype Plugin = Plugin(name: string, filename: string)

  /** The JavaScript values the hooks read and return (numbers are integral here). */
  datatype JsValue =
    | Undefined
    | Bool(b: bool)
    | Num(n: int)
    | Str(s: string)
    | PluginArray(plugins: seq<Plugin>)

  /** ECMAScript ToBoolean. */
  predicate Truthy(v: JsValue) {
    match v
    case Undefined => false
    case Bool(b) => b
    case Num(n) => n != 0
    case Str(s) => s != ""
    case PluginArray(_) => true
  }

  /** createFingerprintScript(fp), as the data its hooks close over. */
  datatype Script = Script(getters: seq<Getter>, gpu: Gpu, canvasNoise: int)

  function CreateFingerprintScript(fp: Profile): Script {
    Script(StaticGetters(fp), fp.webgl, fp.canvasNoise)
  }

  // ---------------------------------------------------------------------------
  // Getters defined with Object.defineProperty

  datatype Host = Navigator | Screen

  /** `Object.defineProperty(host, property, { get: () => value })` */
  datatype Getter = Getter(host: Host, property: string, value: JsValue)

  const FixedPlugins: seq<Plugin> := [
    Plugin("Chrome PDF Plugin", "internal-pdf-viewer"),
    Plugin("Chrome PDF Viewer", "mhjfbmdgcfjbbpaeojofohoefgiehjai"),
    Plugin("Native Client", "internal-nacl-plugin")
  ]

  /** The getters the script defines first: the profile's platform, hardware and screen. */
  function ProfileGetters(fp: Profile): seq<Getter> {
    [
      Getter(Navigator, "platform", Str(fp.platform)),
      Getter(Navigator, "hardwareConcurrency", Num(fp.hardwareConcurrency)),
      Getter(Navigator, "deviceMemory", Num(fp.deviceMemory)),
      Getter(Screen, "width", Num(fp.screen.width)),
      Getter(Screen, "height", Num(fp.screen.height)),
      Getter(Screen, "availWidth", Num(fp.screen.width)),
      Getter(Screen, "availHeight", Num(fp.screen.height)),
      Getter(Screen, "colorDepth", Num(fp.colorDepth)),
      Getter(Screen, "pixelDepth", Num(fp.colorDepth))
    ]
  }

  /** The getters defined after the canvas and audio hooks, hiding the automation traces. */
  const AutomationGetters: seq<Getter> := [
    Getter(Navigator, "webdriver", Undefined),
    Getter(Navigator, "plugins", PluginArray(FixedPlugins))
  ]

  /** All getter definitions of a script that runs to its end, in the order it makes them. */
  function StaticGetters(fp: Profile): seq<Getter> {
    ProfileGetters(fp) + AutomationGetters
  }

  // ---------------------------------------------------------------------------
  // How far the script gets

  /** Which of the globals the script touches exist in the page. */
  datatype Globals = Globals(webgl: bool, webgl2: bool, audioContext: bool, peerConnection: bool)

  datatype Hook =
    | ProfileGetterHook
    | WebGlHook
    | WebGl2Hook
    | CanvasHook
    | AudioHook
    | AutomationGetterHook
    | OfferHook

  /**
   * The hooks the script installs, in order. Reading the prototype of a
   * missing WebGL class throws and ends the script there; a missing audio
   * context or peer-connection class only skips its own hook.
   */
  function InstalledHooks(g: Globals): seq<Hook> {
    if !g.webgl then [ProfileGetterHook]
    else if !g.webgl2 then [ProfileGetterHook, WebGlHook]
    else
      [ProfileGetterHook, WebGlHook, WebGl2Hook, CanvasHook]
      + (if g.audioContext then [AudioHook] else [])
      + [AutomationGetterHook]
      + (if g.peerConnection then [OfferHook] else [])
  }

  /** The getters in force after the script ran in a page with globals `g`. */
  function DefinedGetters(fp: Profile, g: Globals): seq<Getter> {
    ProfileGetters(fp) + (if AutomationGetterHook in InstalledHooks(g) then AutomationGetters else [])
  }

  /** The automation getters and the createOffer hook depend on both WebGL classes being present. */
  lemma InstalledHooksIff(g: Globals)
    ensures InstalledHooks(g)[0] == ProfileGetterHook
    ensures AutomationGetterHook in InstalledHooks(g) <==> g.webgl && g.webgl2
    ensures CanvasHook in InstalledHooks(g) <==> g.webgl && g.webgl2
    ensures OfferHook in InstalledHooks(g) <==> g.webgl && g.webgl2 && g.peerConnection
    ensures AudioHook in InstalledHooks(g) <==> g.webgl && g.webgl2 && g.audioContext
  {
    var hooks := InstalledHooks(g);
    if g.webgl && g.webgl2 {
      assert hooks[3] == CanvasHook;
      if g.audioContext {
        assert hooks[4] == AudioHook && hooks[5] == AutomationGetterHook;
      } else {
        assert hooks[4] == AutomationGetterHook;
      }
      if g.peerConnection {
        assert hooks[|hooks| - 1] == OfferHook;
      }
    }
  }

  /** In a page with both WebGL classes, every getter of the script is in force. */
  lemma DefinedGettersComplete(fp: Profile, g: Globals)
    requires g.webgl && g.webgl2
    ensures DefinedGetters(fp, g) == StaticGetters(fp)
  {
    InstalledHooksIff(g);
  }

  /** A property no definition targets reads as the browser's own. */
  lemma {:induction false} ReadUndefined(getters: seq<Getter>, host: Host, property: string)
    requires forall i :: 0 <= i < |getters| ==> getters[i].host != host || getters[i].property != property
    ensures Read(getters, host, property) == None
  {
    if getters != [] {
      var front := getters[..|getters| - 1];
      assert forall i :: 0 <= i < |front| ==> front[i] == getters[i];
      ReadUndefined(front, host, property);
    }
  }

  /** Without WebGL 2 the script stops early and `navigator.webdriver` keeps the browser's value. */
  lemma WebdriverExposedWithoutWebGl2(fp: Profile, g: Globals)
    requires !g.webgl2
    ensures Read(DefinedGetters(fp, g), Navigator, "webdriver") == None
    ensures Read(DefinedGetters(fp, g), Navigator, "platform") == Some(Str(fp.platform))
  {
    InstalledHooksIff(g);
    var gs := DefinedGetters(fp, g);
    assert gs == ProfileGetters(fp);
    ReadUndefined(gs, Navigator, "webdriver");
    StaticGettersDistinct(fp);
    assert DistinctTargets(gs) by {
      forall i, j | 0 <= i < j < |gs| ensures gs[i].host != gs[j].host || gs[i].property != gs[j].property {
        assert gs[i] == StaticGetters(fp)[i] && gs[j] == StaticGetters(fp)[j];
      }
    }
    ReadDefined(gs, 0);
  }

  /**
   * What a page reads from `host.property` once the getters are defined: the
   * value of the last definition for it, or `None` when the script leaves the
   * property to the browser.
   */
  function Read(getters: seq<Getter>, host: Host, property: string): Option<JsValue> {
    if getters == [] then None
    else
      var g := getters[|getters| - 1];
      if g.host == host && g.property == property then Some(g.value)
      else Read(getters[..|getters| - 1], host, property)
  }

  /** No two definitions target the same property, so their order does not matter. */
  predicate DistinctTargets(getters: seq<Getter>) {
    forall i, j :: 0 <= i < j < |getters| ==>
      getters[i].host != getters[j].host || getters[i].property != getters[j].property
  }

  /** With distinct targets, each defined property reads back the value defined for it. */
  lemma {:induction false} ReadDefined(getters: seq<Getter>, i: nat)
    requires DistinctTargets(getters) && i < |getters|
    ensures Read(getters, getters[i].host, getters[i].property) == Some(getters[i].value)
  {
    var last := |getters| - 1;
    if i < last {
      var front := getters[..last];
      assert front[i] == getters[i];
      assert DistinctTargets(front) by {
        forall a, b | 0 <= a < b < |front|
          ensures front[a].host != front[b].host || front[a].property != front[b].property
        {
          assert front[a] == getters[a] && front[b] == getters[b];
        }
      }
      ReadDefined(front, i);
    }
  }

  /** A property reads as defined only if some definition targets it. */
  lemma {:induction false} ReadOnlyDefined(getters: seq<Getter>, host: Host, property: string) returns (i: nat)
    requires Read(getters, host, property).Some?
    ensures i < |getters| && getters[i].host == host && getters[i].property == property
  {
    var last := |getters| - 1;
    if getters[last].host == host && getters[last].property == property {
      i := last;
    } else {
      var front := getters[..last];
      i := ReadOnlyDefined(front, host, property);
      assert front[i] == getters[i];
    }
  }

  lemma StaticGettersDistinct(fp: Profile)
    ensures DistinctTargets(StaticGetters(fp))
  {
  }

  /**
   * The screen reports the profile's resolution twice over (available size
   * equals full size) and its colour depth twice over (pixel depth equals
   * colour depth).
   */
  lemma ScreenGetters(fp: Profile)
    ensures Read(StaticGetters(fp), Screen, "width") == Some(Num(fp.screen.width))
    ensures Read(StaticGetters(fp), Screen, "availWidth") == Some(Num(fp.screen.width))
    ensures Read(StaticGetters(fp), Screen, "height") == Some(Num(fp.screen.height))
    ensures Read(StaticGetters(fp), Screen, "availHeight") == Some(Num(fp.screen.height))
    ensures Read(StaticGetters(fp), Screen, "colorDepth") == Some(Num(fp.colorDepth))
    ensures Read(StaticGetters(fp), Screen, "pixelDepth") == Some(Num(fp.colorDepth))
  {
    var gs := StaticGetters(fp);
    StaticGettersDistinct(fp);
    ReadDefined(gs, 3);
    ReadDefined(gs, 4);
    ReadDefined(gs, 5);
    ReadDefined(gs, 6);
    ReadDefined(gs, 7);
    ReadDefined(gs, 8);
  }

  /** The navigator reports the profile's platform, core count and memory, no webdriver flag and the fixed plugins. */
  lemma NavigatorGetters(fp: Profile)
    ensures Read(StaticGetters(fp), Navigator, "platform") == Some(Str(fp.platform))
    ensures Read(StaticGetters(fp), Navigator, "hardwareConcurrency") == Some(Num(fp.hardwareConcurrency))
    ensures Read(StaticGetters(fp), Navigator, "deviceMemory") == Some(Num(fp.deviceMemory))
    ensures Read(StaticGetters(fp), Navigator, "webdriver") == Some(Undefined)
    ensures Read(StaticGetters(fp), Navigator, "plugins") == Some(PluginArray(FixedPlugins))
  {
    var gs := StaticGetters(fp);
    StaticGettersDistinct(fp);
    ReadDefined(gs, 0);
    ReadDefined(gs, 1);
    ReadDefined(gs, 2);
    ReadDefined(gs, 9);
    ReadDefined(gs, 10);
  }

  /** The properties the getter table overrides are exactly these eleven; every other one is the browser's own. */
  lemma OverriddenProperties(fp: Profile, host: Host, property: string)
    ensures Read(StaticGetters(fp), host, property).Some? <==>
      (host == Navigator && property in {"platform", "hardwareConcurrency", "deviceMemory", "webdriver", "plugins"})
      || (host == Screen && property in {"width", "height", "availWidth", "availHeight", "colorDepth", "pixelDepth"})
  {
    var gs := StaticGetters(fp);
    if Read(gs, host, property).Some? {
      var i := ReadOnlyDefined(gs, host, property);
    } else if host == Navigator {
      NavigatorGetters(fp);
    } else {
      ScreenGetters(fp);
    }
  }

  // ---------------------------------------------------------------------------
  // WebGL getParameter

  const UnmaskedVendorWebgl: int := 37445
  const UnmaskedRendererWebgl: int := 37446

  /** The replacement `getParameter` (the same body is installed on both context classes). */
  function GetParameter(gpu: Gpu, original: JsValue -> JsValue, param: JsValue): JsValue {
    if param == Num(UnmaskedVendorWebgl) then Str(gpu.vendor)
    else if param == Num(UnmaskedRendererWebgl) then Str(gpu.renderer)
    else original(param)
  }

  datatype ContextClass = WebGL | WebGL2

  /** The `getParameter` on the prototype of each rendering-context class. */
  datatype GlPrototypes = GlPrototypes(webgl: JsValue -> JsValue, webgl2: JsValue -> JsValue)

  function GetParameterOf(protos: GlPrototypes, cls: ContextClass): JsValue -> JsValue {
    match cls
    case WebGL => protos.webgl
    case WebGL2 => protos.webgl2
  }

  /** Each class's `getParameter` replaced by one that wraps that class's own original. */
  function InstallGetParameterHooks(gpu: Gpu, protos: GlPrototypes): GlPrototypes {
    GlPrototypes(
      param => GetParameter(gpu, protos.webgl, param),
      param => GetParameter(gpu, protos.webgl2, param))
  }

  /**
   * On either context class, the two unmasked-debug codes answer the GPU
   * strings of the profile the script was built from, and every other
   * parameter reaches that class's original.
   */
  lemma GetParameterHooked(fp: Profile, protos: GlPrototypes, cls: ContextClass, param: JsValue)
    ensures var answer := GetParameterOf(InstallGetParameterHooks(CreateFingerprintScript(fp).gpu, protos), cls)(param);
      && (param == Num(37445) ==> answer == Str(fp.webgl.vendor))
      && (param == Num(37446) ==> answer == Str(fp.webgl.renderer))
      && (param != Num(37445) && param != Num(37446) ==> answer == GetParameterOf(protos, cls)(param))
  {
  }

  /** Running the hook installation a second time changes no answer. */
  lemma GetParameterHooksIdempotent(gpu: Gpu, protos: GlPrototypes, cls: ContextClass, param: JsValue)
    ensures GetParameterOf(InstallGetParameterHooks(gpu, InstallGetParameterHooks(gpu, protos)), cls)(param)
         == GetParameterOf(InstallGetParameterHooks(gpu, protos), cls)(param)
  {
  }

  // ---------------------------------------------------------------------------
  // Canvas toDataURL

  type Byte = x: nat | x < 256

  /** A canvas element: its size, whether `getContext('2d')` yields a context, and its RGBA bitmap. */
  class Canvas {
    var width: nat
    var height: nat
    var hasContext2d: bool
    var pixels: array<Byte>

    ghost predicate Valid()
      reads this
    {
      pixels.Length == 4 * width * height
    }
  }

  /** `(Math.random() * noise) | 0`: the product truncated toward zero, then ToInt32. */
  function NoiseKey(u: Random, noise: int): int
    requires InUnit(u)
  {
    ToInt32(if noise >= 0 then FloorTimes(u, noise) else -FloorTimes(u, -noise))
  }

  /** The noise key never reaches the noise: 0 <= key < noise. */
  lemma NoiseKeyRange(u: Random, noise: int)
    requires InUnit(u) && 1 <= noise <= TwoTo31
    ensures 0 <= NoiseKey(u, noise) < noise
  {
  }

  /** One `Math.random()` per pixel, enough for a bitmap of `length` bytes. */
  predicate PixelDraws(draws: seq<Random>, length: nat) {
    4 * |draws| >= length && forall j :: 0 <= j < |draws| ==> InUnit(draws[j])
  }

  /** The bitmap after the pre-pass: every 4th byte (red) XORed with that pixel's key. */
  function Perturbed(data: seq<Byte>, noise: int, draws: seq<Random>): (r: seq<Byte>)
    requires PixelDraws(draws, |data|)
    ensures |r| == |data|
  {
    seq(|data|, i requires 0 <= i < |data| =>
      if i % 4 == 0 then ClampedXor(data[i], NoiseKey(draws[i / 4], noise)) as Byte else data[i])
  }

  /** Byte `channel` of pixel `p` sits at index 4p + channel. */
  lemma PixelBytes(p: nat, channel: nat)
    requires channel < 4
    ensures (4 * p + channel) / 4 == p && (4 * p + channel) % 4 == channel
  {
  }

  /**
   * The wrapped `toDataURL(...args)`. With a 2D context and a non-empty canvas
   * the pre-pass runs, unless reading the pixels throws (`readable` false: a
   * canvas tainted by cross-origin data), which is swallowed; the original
   * export then runs on the current bitmap with the same arguments. Reading
   * with getImageData and writing back with putImageData is modelled as
   * changing the bitmap in place, with the bytes stored exactly, which holds
   * for opaque pixels only. On a tainted canvas the original export itself
   * throws a SecurityError, which the total `original` here does not express.
   */
  method ToDataUrl(canvas: Canvas, noise: int, draws: seq<Random>, readable: bool,
                   args: seq<JsValue>, original: (seq<Byte>, seq<JsValue>) -> string)
    returns (url: string)
    requires canvas.Valid()
    requires PixelDraws(draws, canvas.pixels.Length)
    modifies canvas.pixels
    ensures canvas.pixels[..] ==
      if canvas.hasContext2d && canvas.width > 0 && canvas.height > 0 && readable
      then Perturbed(old(canvas.pixels[..]), noise, draws)
      else old(canvas.pixels[..])
    ensures url == original(canvas.pixels[..], args)
  {
    if canvas.hasContext2d && canvas.width > 0 && canvas.height > 0 && readable {
      var data := canvas.pixels;
      ghost var before := data[..];
      ghost var after := Perturbed(before, noise, draws);
      var i := 0;
      ghost var pixel := 0;
      while i < data.Length
        invariant i == 4 * pixel
        invariant forall j :: 0 <= j < i && j < data.Length ==> data[j] == after[j]
        invariant forall j :: i <= j < data.Length ==> data[j] == before[j]
        decreases data.Length - i
      {
        PixelBytes(pixel, 0);
        PixelBytes(pixel, 1);
        PixelBytes(pixel, 2);
        PixelBytes(pixel, 3);
        data[i] := ClampedXor(data[i], NoiseKey(draws[i / 4], noise));
        i := i + 4;
        pixel := pixel + 1;
      }
      assert data[..] == after;
    }
    url := original(canvas.pixels[..], args);
  }

  /** Only the red byte of each pixel can change. */
  lemma PerturbedKeepsOtherChannels(data: seq<Byte>, noise: int, draws: seq<Random>, i: nat)
    requires PixelDraws(draws, |data|) && i < |data| && i % 4 != 0
    ensures Perturbed(data, noise, draws)[i] == data[i]
  {
  }

  /** For noise in [1, 2^31], each red byte moves by less than the noise, whatever clamping happens. */
  lemma PerturbedClose(data: seq<Byte>, noise: int, draws: seq<Random>, i: nat)
    requires PixelDraws(draws, |data|) && i < |data| && 1 <= noise <= TwoTo31
    ensures data[i] - noise < Perturbed(data, noise, draws)[i] < data[i] + noise
  {
    if i % 4 == 0 {
      var k := NoiseKey(draws[i / 4], noise);
      NoiseKeyRange(draws[i / 4], noise);
      ClampedXorClose(data[i], k);
    }
  }

  /** For noise in [0, 256] no clamping happens: each red byte is exactly `b ^ key` with 0 <= key < noise. */
  lemma PerturbedIsXor(data: seq<Byte>, noise: int, draws: seq<Random>, i: nat)
    requires PixelDraws(draws, |data|) && i < |data| && i % 4 == 0 && 0 <= noise <= 256
    ensures var k := NoiseKey(draws[i / 4], noise);
      0 <= k && (k < noise || noise == 0) && Perturbed(data, noise, draws)[i] == Xor(data[i], k)
  {
    ClampedXorExact(data[i], NoiseKey(draws[i / 4], noise));
  }

  /** For noise in [0, 256], applying the pre-pass twice with the same draws restores the bitmap. */
  lemma PerturbedSelfInverse(data: seq<Byte>, noise: int, draws: seq<Random>)
    requires PixelDraws(draws, |data|) && 0 <= noise <= 256
    ensures Perturbed(Perturbed(data, noise, draws), noise, draws) == data
  {
    var once := Perturbed(data, noise, draws);
    var twice := Perturbed(once, noise, draws);
    forall i | 0 <= i < |data| ensures twice[i] == data[i] {
      if i % 4 == 0 {
        ClampedXorSelfInverse(data[i], NoiseKey(draws[i / 4], noise));
      }
    }
  }

  /**
   * The pre-pass writes its result back to the canvas, so a second export
   * perturbs the already perturbed bitmap: with noise 10, keys 9 and then 6
   * take a red byte of 0 to 15, further from the original than the noise.
   */
  lemma SecondExportCanDriftPastNoise()
    ensures var data: seq<Byte> := [0, 0, 0, 0];
      var first := Perturbed(data, 10, [Random(9, 10)]);
      Perturbed(first, 10, [Random(6, 10)])[0] == 15
  {
    var data: seq<Byte> := [0, 0, 0, 0];
    assert NoiseKey(Random(9, 10), 10) == 9;
    assert NoiseKey(Random(6, 10), 10) == 6;
    assert Xor(0, 9) == 9;
    assert Xor(4, 3) == 7 by {
      assert Xor(2, 1) == 3;
    }
    assert Xor(9, 6) == 15;
    ClampedXorExact(0, 9);
    ClampedXorExact(9, 6);
  }

  /** With a noise in [1, 10], each red byte moves by less than 10 and the same draws undo the pre-pass. */
  lemma SmallNoiseBounded(data: seq<Byte>, noise: int, draws: seq<Random>, i: nat)
    requires PixelDraws(draws, |data|) && i < |data| && 1 <= noise <= 10
    ensures data[i] as int - 10 < Perturbed(data, noise, draws)[i] as int < data[i] as int + 10
    ensures Perturbed(Perturbed(data, noise, draws), noise, draws) == data
  {
    PerturbedClose(data, noise, draws, i);
    PerturbedSelfInverse(data, noise, draws);
  }

  /**
   * The script of every generated profile carries a canvas noise in [1, 10],
   * so one export with it moves each red byte by less than 10 and the same
   * draws undo it.
   */
  lemma GeneratedCanvasNoise(d: Draws, data: seq<Byte>, draws: seq<Random>, i: nat)
    requires ValidDraws(d) && PixelDraws(draws, |data|) && i < |data|
    ensures var noise := CreateFingerprintScript(GenerateRandomFingerprint(d)).canvasNoise;
      && 1 <= noise <= 10
      && data[i] as int - 10 < Perturbed(data, noise, draws)[i] as int < data[i] as int + 10
      && Perturbed(Perturbed(data, noise, draws), noise, draws) == data
  {
    var fp := GenerateRandomFingerprint(d);
    assert Plausible(fp);
    SmallNoiseBounded(data, fp.canvasNoise, draws, i);
  }

  // ---------------------------------------------------------------------------
  // RTCPeerConnection createOffer

  /** The options object's own properties: `offerToReceiveAudio` (Undefined when absent) and all the others. */
  datatype OfferOptionsValue = OfferOptionsValue(offerToReceiveAudio: JsValue, others: map<string, JsValue>)

  /** An options object a page passes to `createOffer`. */
  class OfferOptions {
    var offerToReceiveAudio: JsValue
    var others: map<string, JsValue>

    function Value(): OfferOptionsValue
      reads this
    {
      OfferOptionsValue(offerToReceiveAudio, others)
    }
  }

  /** The options after sanitisation: a truthy audio request becomes `false`, nothing else moves. */
  function Sanitized(o: OfferOptionsValue): (r: OfferOptionsValue)
    ensures !Truthy(r.offerToReceiveAudio)
    ensures r.others == o.others
    ensures Truthy(o.offerToReceiveAudio) ==> r.offerToReceiveAudio == Bool(false)
    ensures !Truthy(o.offerToReceiveAudio) ==> r == o
  {
    if Truthy(o.offerToReceiveAudio) then o.(offerToReceiveAudio := Bool(false)) else o
  }

  lemma SanitizedIdempotent(o: OfferOptionsValue)
    ensures Sanitized(Sanitized(o)) == Sanitized(o)
  {
  }

  /**
   * The wrapped `createOffer(options)`: sanitise the options in place when
   * there are any, then call the original with the same arguments.
   */
  method CreateOffer(options: OfferOptions?, original: Option<OfferOptionsValue> -> JsValue)
    returns (offer: JsValue)
    modifies options
    ensures options != null ==> options.Value() == Sanitized(old(options.Value()))
    ensures offer == original(if options == null then None else Some(options.Value()))
  {
    if options != null && Truthy(options.offerToReceiveAudio) {
      options.offerToReceiveAudio := Bool(false);
    }
    offer := original(if options == null then None else Some(options.Value()));
  }
}
