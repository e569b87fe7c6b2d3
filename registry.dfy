/** `ALL_CHECKS`: the fixed, ordered registry of checks the report is built from. */
module Registry {

  /** The function each entry runs. */
  datatype CheckFunction =
    | WebGL | AutomationFlags | HardwareConcurrency | RAM | Battery | DeviceSensors
    | Display | MediaDevices | ScreenProperties
    | DevTools | WindowFocus | Clipboard
    | VPNProxy | NetworkInfo
    | CanvasFingerprint | AudioFingerprint

  /** One registry entry: the table it is shown in, its display name, its row id and its function. */
  datatype Check = Check(tableId: string, checkName: string, checkId: string, checkFunction: CheckFunction)

  const CamerasId: string := "connected-cameras"
  const MicsId: string := "connected-mics"

  /** The two row ids the media check reports under. */
  predicate IsMediaId(id: string)
  {
    id == CamerasId || id == MicsId
  }

  const AllChecks: seq<Check> := [
    Check("virtualization-report", "WebGL Renderer", "webgl-renderer", WebGL),
    Check("virtualization-report", "Automation Flags", "automation-flags", AutomationFlags),
    Check("virtualization-report", "Hardware Concurrency", "hardware-concurrency", HardwareConcurrency),
    Check("virtualization-report", "Estimated System RAM", "cpu-ram", RAM),
    Check("virtualization-report", "Battery Status", "battery-status", Battery),
    Check("virtualization-report", "Device Sensors (Motion/Orientation)", "device-sensors", DeviceSensors),
    Check("hardware-report", "Display Setup", "display-setup", Display),
    Check("hardware-report", "Connected Cameras", "connected-cameras", MediaDevices),
    Check("hardware-report", "Connected Microphones", "connected-mics", MediaDevices),
    Check("hardware-report", "Screen Properties", "screen-properties", ScreenProperties),
    Check("browser-report", "Developer Tools", "dev-tools", DevTools),
    Check("browser-report", "Window Focus", "window-focus", WindowFocus),
    Check("browser-report", "Clipboard Activity", "clipboard-activity", Clipboard),
    Check("network-report", "VPN / Proxy Detection", "vpn-proxy", VPNProxy),
    Check("network-report", "Network Information", "network-info", NetworkInfo),
    Check("fingerprint-report", "Canvas Fingerprint", "canvas-fingerprint", CanvasFingerprint),
    Check("fingerprint-report", "Audio Fingerprint", "audio-fingerprint", AudioFingerprint)
  ]

  const CamerasIndex: nat := 7
  const MicsIndex: nat := 8

  /** The row ids the registry names. */
  function CheckIds(registry: seq<Check>): set<string>
  {
    set c | c in registry :: c.checkId
  }

  /** The table ids the registry names. */
  function TableIds(registry: seq<Check>): set<string>
  {
    set c | c in registry :: c.tableId
  }

  /** No two entries share a row id. */
  predicate UniqueIds(registry: seq<Check>)
  {
    forall i, j :: 0 <= i < j < |registry| ==> registry[i].checkId != registry[j].checkId
  }

  /** Ids of the first part and of the second part never coincide. */
  predicate DisjointIds(a: seq<Check>, b: seq<Check>)
  {
    forall i, j :: 0 <= i < |a| && 0 <= j < |b| ==> a[i].checkId != b[j].checkId
  }

  lemma UniqueIdsAppend(a: seq<Check>, b: seq<Check>)
    requires UniqueIds(a) && UniqueIds(b) && DisjointIds(a, b)
    ensures UniqueIds(a + b)
  {
    forall i, j | 0 <= i < j < |a + b| ensures (a + b)[i].checkId != (a + b)[j].checkId {
      if j < |a| {
      } else if i >= |a| {
        assert (a + b)[i] == b[i - |a|] && (a + b)[j] == b[j - |a|];
      } else {
        assert (a + b)[j] == b[j - |a|];
      }
    }
  }

  // The pairwise comparisons of the id literals, in three batches small enough for the solver.
  lemma FirstPartUnique() ensures UniqueIds(AllChecks[..10]) {}
  lemma SecondPartUnique() ensures UniqueIds(AllChecks[10..]) {}
  lemma PartsDisjoint() ensures DisjointIds(AllChecks[..10], AllChecks[10..]) {}

  /** No two registry entries share a row id. */
  lemma AllChecksUniqueIds()
    ensures UniqueIds(AllChecks)
  {
    FirstPartUnique();
    SecondPartUnique();
    PartsDisjoint();
    UniqueIdsAppend(AllChecks[..10], AllChecks[10..]);
    assert AllChecks == AllChecks[..10] + AllChecks[10..];
  }

  /** The registry has 17 entries and the media check is registered twice, under the two media row ids. */
  lemma MediaRegisteredTwice()
    ensures |AllChecks| == 17
    ensures AllChecks[CamerasIndex].checkId == CamerasId && AllChecks[MicsIndex].checkId == MicsId
    ensures forall i :: 0 <= i < |AllChecks| ==>
              (AllChecks[i].checkFunction == MediaDevices <==> i == CamerasIndex || i == MicsIndex)
    ensures forall i :: 0 <= i < |AllChecks| ==>
              (IsMediaId(AllChecks[i].checkId) <==> i == CamerasIndex || i == MicsIndex)
  {
  }
}
