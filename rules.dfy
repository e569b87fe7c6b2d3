/** The decision rules of the individual checks, with every browser reading taken as a parameter.
    Each rule returns the `{ status, data }` verdict its check resolves to. */
module Rules {
  import opened Verdicts
  import opened Text

  const WebGLKeywords: seq<string> := ["vmware", "virtualbox", "swiftshader", "llvmpipe", "parallels", "mesa"]
  const MediaKeywords: seq<string> := ["virtual", "obs", "droidcam", "splitcam", "dummy", "vcam", "xsplit"]

  /** A verdict whose status is one of the two the checks produce. */
  predicate Decided(v: Verdict)
  {
    v.status == PassStatus || v.status == FlaggedStatus
  }

  function Decide(flagged: bool, data: string): (v: Verdict)
    ensures Decided(v) && v.data == data
    ensures v.status == FlaggedStatus <==> flagged
  {
    Verdict(if flagged then FlaggedStatus else PassStatus, data)
  }

  // ---------------------------------------------------------------- WebGL

  /** The unmasked vendor and renderer strings; `None` when any step of reading them threw
      (no WebGL context, no debug-renderer extension). */
  datatype GLInfo = GLInfo(vendor: string, renderer: string)

  function CheckWebGL(info: Option<GLInfo>): (v: Verdict)
    ensures Decided(v)
    ensures info.None? ==> v == Decide(true, "Could not retrieve WebGL renderer info.")
    ensures info.Some? ==>
      && v.data == "Vendor: " + info.value.vendor + "\nRenderer: " + info.value.renderer
      && (v.status == FlaggedStatus <==>
            exists j :: 0 <= j < |WebGLKeywords| && Includes(ToLower(info.value.renderer), WebGLKeywords[j]))
  {
    match info
    case None => Decide(true, "Could not retrieve WebGL renderer info.")
    case Some(gl) =>
      Decide(IncludesAny(ToLower(gl.renderer), WebGLKeywords),
              "Vendor: " + gl.vendor + "\nRenderer: " + gl.renderer)
  }

  // ------------------------------------------------------ automation flags

  function CheckAutomationFlags(webdriver: bool): (v: Verdict)
    ensures Decided(v)
    ensures v.status == FlaggedStatus <==> webdriver
    ensures !webdriver ==> v.data == "No automation flags detected."
  {
    if webdriver then
      Decide(true, "navigator.webdriver flag is TRUE. Browser is likely controlled by automation.")
    else
      Decide(false, "No automation flags detected.")
  }

  // -------------------------------------------------- hardware concurrency

  /** `navigator.hardwareConcurrency || 0`: a missing reading counts as zero cores. */
  function CoreCount(reported: Option<nat>): (n: nat)
    ensures reported.None? ==> n == 0
    ensures reported.Some? ==> n == reported.value
  {
    match reported
    case None => 0
    case Some(cores) => cores
  }

  function CheckHardwareConcurrency(reported: Option<nat>): (v: Verdict)
    ensures Decided(v)
    ensures v.status == FlaggedStatus <==> CoreCount(reported) <= 2
    ensures var line := "Logical Cores reported: " + Decimal(CoreCount(reported)) + ".";
      && |line| <= |v.data| && v.data[..|line|] == line
  {
    var cores := CoreCount(reported);
    var line := "Logical Cores reported: " + Decimal(cores) + ".";
    if cores <= 2 then Decide(true, line + " (Low core count may indicate a VM).")
    else Decide(false, line)
  }

  // ------------------------------------------------------- media devices

  /** One entry of `enumerateDevices()`. */
  datatype Device = Device(kind: string, labelText: string)

  /** The outcome of asking for camera and microphone access and enumerating the devices;
      `Denied` carries the name of the error that was thrown. */
  datatype MediaAccess = Granted(devices: seq<Device>) | Denied(errorName: string)

  /** The two sub-results of the media check. */
  datatype MediaVerdicts = MediaVerdicts(cameras: Verdict, mics: Verdict)

  const VideoInput: string := "videoinput"
  const AudioInput: string := "audioinput"

  /** `devices.filter(d => d.kind === kind)`. */
  function OfKind(devices: seq<Device>, kind: string): (r: seq<Device>)
    ensures |r| <= |devices|
    ensures forall d :: d in r <==> d in devices && d.kind == kind
  {
    if devices == [] then []
    else (if devices[0].kind == kind then [devices[0]] else []) + OfKind(devices[1..], kind)
  }

  /** A single device is kept exactly when it has the kind. */
  lemma OfKindSingle(d: Device, kind: string)
    ensures OfKind([d], kind) == if d.kind == kind then [d] else []
  {
    assert [d][1..] == [];
  }

  /** The filter distributes over concatenation, so with `OfKindSingle` it keeps the matching devices in
      their order and with their repetitions. */
  lemma {:induction false} OfKindAppend(a: seq<Device>, b: seq<Device>, kind: string)
    ensures OfKind(a + b, kind) == OfKind(a, kind) + OfKind(b, kind)
  {
    if a == [] {
      assert a + b == b;
    } else {
      assert (a + b)[0] == a[0];
      assert (a + b)[1..] == a[1..] + b;
      OfKindAppend(a[1..], b, kind);
    }
  }

  predicate SuspiciousLabel(labelText: string)
  {
    IncludesAny(ToLower(labelText), MediaKeywords)
  }

  /** `devices.some(d => keywords.some(k => d.labelText.toLowerCase().includes(k)))`. */
  function AnySuspicious(devices: seq<Device>): (r: bool)
    ensures r <==> exists d :: d in devices && SuspiciousLabel(d.labelText)
  {
    if devices == [] then false
    else SuspiciousLabel(devices[0].labelText) || AnySuspicious(devices[1..])
  }

  /** `devices.map((d, i) => `[${i + 1}] ${d.labelText}`)`, numbering from `first`. */
  function NumberedLabels(devices: seq<Device>, first: nat): (r: seq<string>)
    ensures |r| == |devices|
    ensures forall i :: 0 <= i < |r| ==> r[i] == "[" + Decimal(first + i) + "] " + devices[i].labelText
  {
    if devices == [] then []
    else ["[" + Decimal(first) + "] " + devices[0].labelText] + NumberedLabels(devices[1..], first + 1)
  }

  /** The verdict for one kind of device: pass with `emptyText` when there is none. */
  function DeviceGroup(devices: seq<Device>, emptyText: string): (v: Verdict)
    ensures Decided(v)
    ensures devices == [] ==> v == Decide(false, emptyText)
    ensures devices != [] ==> v.data == JoinLines(NumberedLabels(devices, 1))
    ensures v.status == FlaggedStatus <==> exists d :: d in devices && SuspiciousLabel(d.labelText)
  {
    if devices == [] then Decide(false, emptyText)
    else Decide(AnySuspicious(devices), JoinLines(NumberedLabels(devices, 1)))
  }

  function MediaErrorText(errorName: string): string
  {
    "Error: " + errorName + ". Permission may have been denied."
  }

  function CheckMediaDevices(access: MediaAccess): (r: MediaVerdicts)
    ensures Decided(r.cameras) && Decided(r.mics)
    ensures access.Denied? ==>
      r.cameras == r.mics == Decide(true, MediaErrorText(access.errorName))
    ensures access.Granted? ==>
      && (r.cameras.status == FlaggedStatus <==>
            exists d :: d in access.devices && d.kind == VideoInput && SuspiciousLabel(d.labelText))
      && (r.mics.status == FlaggedStatus <==>
            exists d :: d in access.devices && d.kind == AudioInput && SuspiciousLabel(d.labelText))
    ensures access.Granted? && (forall d :: d in access.devices ==> d.kind != VideoInput) ==>
      r.cameras == Decide(false, "No cameras found.")
    ensures access.Granted? && (forall d :: d in access.devices ==> d.kind != AudioInput) ==>
      r.mics == Decide(false, "No microphones found.")
  {
    match access
    case Denied(name) =>
      MediaVerdicts(Decide(true, MediaErrorText(name)), Decide(true, MediaErrorText(name)))
    case Granted(devices) =>
      var cameras := OfKind(devices, VideoInput);
      var mics := OfKind(devices, AudioInput);
      assert cameras != [] ==> cameras[0] in cameras;
      assert mics != [] ==> mics[0] in mics;
      MediaVerdicts(DeviceGroup(cameras, "No cameras found."), DeviceGroup(mics, "No microphones found."))
  }

  // ---------------------------------------------------- screen properties

  function CheckScreenProperties(width: nat, height: nat, colorDepth: nat): (v: Verdict)
    ensures Decided(v)
    ensures v.status == FlaggedStatus <==> width < 800 || height < 600 || colorDepth < 24
    ensures var line := "Resolution: " + Decimal(width) + "x" + Decimal(height)
                        + ", Color Depth: " + Decimal(colorDepth) + "-bit";
      && |line| <= |v.data| && v.data[..|line|] == line
  {
    var line := "Resolution: " + Decimal(width) + "x" + Decimal(height)
                + ", Color Depth: " + Decimal(colorDepth) + "-bit";
    if width < 800 || height < 600 || colorDepth < 24 then
      Decide(true, line + " (Uncommon screen properties may indicate a VM).")
    else
      Decide(false, line)
  }

  // ---------------------------------------------------------- window focus

  function CheckWindowFocus(focusLossCount: nat): (v: Verdict)
    ensures Decided(v)
    ensures v.status == FlaggedStatus <==> focusLossCount > 0
    ensures v.data == "Window lost focus " + Decimal(focusLossCount) + " time(s)."
  {
    Decide(focusLossCount > 0, "Window lost focus " + Decimal(focusLossCount) + " time(s).")
  }

  // ------------------------------------------------------------- clipboard

  const ClipboardThreshold: nat := 5

  function CheckClipboard(copyCount: nat, cutCount: nat, pasteCount: nat): (v: Verdict)
    ensures Decided(v)
    ensures v.status == FlaggedStatus <==> copyCount + cutCount + pasteCount > ClipboardThreshold
    ensures v.data == "Clipboard Actions: " + Decimal(copyCount) + " copies, " + Decimal(cutCount)
                      + " cuts, " + Decimal(pasteCount) + " pastes."
  {
    Decide(copyCount + cutCount + pasteCount > ClipboardThreshold,
            "Clipboard Actions: " + Decimal(copyCount) + " copies, " + Decimal(cutCount)
            + " cuts, " + Decimal(pasteCount) + " pastes.")
  }

  // --------------------------------------------------- VPN / proxy (rule only)

  /** The geolocation lookup: its `timezone`, a response that was not ok, or a fetch that threw. */
  datatype TimezoneLookup = Fetched(ipTimezone: string) | NotOk | FetchFailed(message: string)

  function CheckVPNProxy(lookup: TimezoneLookup, browserTimezone: string): (v: Verdict)
    ensures Decided(v)
    ensures v.status == PassStatus <==> lookup.Fetched? && lookup.ipTimezone == browserTimezone
    ensures lookup.NotOk? ==> v.data == "Could not perform IP geolocation check. Error: API request failed"
  {
    match lookup
    case Fetched(ipTimezone) =>
      var line := "Browser Timezone: " + browserTimezone + "\nIP-based Timezone: " + ipTimezone;
      if browserTimezone != ipTimezone then
        Decide(true, line + "\n(Mismatch suggests use of a VPN or proxy).")
      else
        Decide(false, line)
    case NotOk => Decide(true, "Could not perform IP geolocation check. Error: API request failed")
    case FetchFailed(message) => Decide(true, "Could not perform IP geolocation check. Error: " + message)
  }

  // ------------------------------------------------------ network information

  /** The fields of `navigator.connection` the check reads; speeds are given as the text they render to. */
  datatype Connection = Connection(effectiveType: string, downlink: string, rtt: string, saveData: bool)

  function CheckNetworkInfo(conn: Option<Connection>): (v: Verdict)
    ensures Decided(v)
    ensures conn.None? ==> v == Decide(false, "Network information not available.")
    ensures conn.Some? ==>
      (v.status == FlaggedStatus <==> conn.value.effectiveType == "slow-2g" || conn.value.saveData)
  {
    match conn
    case None => Decide(false, "Network information not available.")
    case Some(c) =>
      var lines := "Effective Type: " + c.effectiveType + "\nDownlink Speed: " + c.downlink
                   + " Mbps\nRound-Trip Time: " + c.rtt + " ms";
      if c.effectiveType == "slow-2g" || c.saveData then
        Decide(true, lines + "\n(Connection is very slow or in data-saving mode).")
      else
        Decide(false, lines)
  }
}
