/**
 * The Whitaker rogue-device reconciler: it loads the Carter device manifest,
 * turns it into a set of lower-cased MAC addresses, and reports every live
 * UniFi device whose MAC is not in that set.
 *
 * The file system is a map from path to parsed YAML document, the
 * environment is a record of optional strings, and the controller's answer
 * (device and client lists, or a failure) is an input value.
 */
module Whitaker {
  import opened Text

  /** A device record, from the manifest or from the controller; only `name` and `mac` are read. */
  datatype DeviceRecord = DeviceRecord(name: Option<string>, mac: Option<string>)

  /** A client record from the controller; only `mac` is read. */
  datatype ClientRecord = ClientRecord(hostname: Option<string>, mac: Option<string>)

  /** The manifest's `devices` entry: a YAML list of records, or a mapping from identifier to record. */
  datatype DevicesEntry =
    | DeviceList(records: seq<DeviceRecord>)
    | DeviceMap(byId: map<string, DeviceRecord>)

  /** A loaded manifest mapping; `devices` is `None` when the key is absent. */
  datatype Manifest = Manifest(devices: Option<DevicesEntry>)

  /** The empty mapping `{}`. */
  const EmptyManifest := Manifest(None)

  /**
   * A file system as this script sees it: the paths that exist, each with its
   * parsed YAML document; `None` stands for a document that is empty or
   * otherwise falsy, which `yaml.safe_load(f) or {}` replaces by `{}`.
   */
  type ManifestFiles = map<string, Option<Manifest>>

  /** The environment variables read by the script. */
  datatype Environment = Environment(
    deviceManifest: Option<string>,
    host: Option<string>,
    user: Option<string>,
    password: Option<string>)

  /** What the controller returned: both lists, or an error (library missing, network failure, any other exception). */
  datatype LiveState =
    | Unreachable
    | Live(devices: seq<DeviceRecord>, clients: seq<ClientRecord>)

  /** One reported rogue device. */
  datatype Rogue = Rogue(name: Option<string>, mac: string, kind: string)

  const InfrastructureKind := "Infrastructure"

  /** The conventional manifest locations, searched in this order. */
  const ManifestCandidates: seq<string> := [
    "inventory/device-manifest.yml",
    "test-satellite/manifests/device-manifest.yml",
    "templates/device-manifest-template.yml"
  ]

  /** The path used when `DEVICE_MANIFEST` is unset. */
  const DefaultManifestPath := "test-satellite/manifests/argocd/satellite-app.yaml"

  /** The outcome of one run. */
  datatype Outcome =
    | SkippedMissingCredentials
    | ControllerError
    | NoRogues
    | RoguesFound(rogues: seq<Rogue>)

  /** `load_manifest`: a missing file and an empty document both give the empty mapping. */
  function LoadManifest(files: ManifestFiles, path: string): (m: Manifest)
    ensures path !in files ==> m == EmptyManifest
    ensures path in files && files[path].None? ==> m == EmptyManifest
    ensures path in files && files[path].Some? ==> m == files[path].value
  {
    if path in files then files[path].GetOr(EmptyManifest) else EmptyManifest
  }

  /** `manifest.get("devices", {})` */
  function DevicesOf(m: Manifest): DevicesEntry {
    m.devices.GetOr(DeviceMap(map[]))
  }

  /** The records of either shape of the `devices` entry. */
  function RecordsOf(e: DevicesEntry): set<DeviceRecord> {
    match e
    case DeviceList(records) => set d | d in records
    case DeviceMap(byId) => byId.Values
  }

  /** `d.get("mac")` is truthy. */
  predicate HasMac(d: DeviceRecord) {
    Truthy(d.mac)
  }

  /** `(x.get("mac") or "").lower()` */
  function NormalizeMac(mac: Option<string>): (r: string)
    ensures NoUpper(r)
    ensures r != "" <==> Truthy(mac)
  {
    Lower(mac.GetOr(""))
  }

  /**
   * The manifest MAC set: exactly the lower-cased, non-empty `mac` fields of
   * the entry's records, whichever shape the entry has.
   */
  function ManifestMacs(e: DevicesEntry): (macs: set<string>)
    ensures forall m :: m in macs <==> exists d :: d in RecordsOf(e) && HasMac(d) && NormalizeMac(d.mac) == m
    ensures forall m :: m in macs ==> m != "" && NoUpper(m)
  {
    match e
    case DeviceList(records) =>
      set d | d in records && HasMac(d) :: NormalizeMac(d.mac)
    case DeviceMap(byId) =>
      var macs := set k | k in byId && HasMac(byId[k]) :: NormalizeMac(byId[k].mac);
      assert forall d :: d in byId.Values ==> exists k :: k in byId && byId[k] == d;
      macs
  }

  /** The same records give the same MAC set whether listed or keyed by identifier. */
  lemma ShapeIndependent(records: seq<DeviceRecord>, byId: map<string, DeviceRecord>)
    requires (set d | d in records) == byId.Values
    ensures ManifestMacs(DeviceList(records)) == ManifestMacs(DeviceMap(byId))
  {
    assert RecordsOf(DeviceList(records)) == RecordsOf(DeviceMap(byId));
  }

  /** Records with a missing or empty `mac` contribute nothing to the MAC set. */
  lemma MaclessRecordIgnored(records: seq<DeviceRecord>, d: DeviceRecord)
    requires !HasMac(d)
    ensures ManifestMacs(DeviceList(records + [d])) == ManifestMacs(DeviceList(records))
  {
    assert RecordsOf(DeviceList(records + [d])) == RecordsOf(DeviceList(records)) + {d};
  }

  /**
   * Index of the first candidate that exists, or `|candidates|` when none
   * does.
   */
  function FirstExisting(candidates: seq<string>, existing: set<string>): (k: nat)
    ensures k <= |candidates|
    ensures forall j :: 0 <= j < k ==> candidates[j] !in existing
    ensures k < |candidates| ==> candidates[k] in existing
  {
    if candidates == [] then 0
    else if candidates[0] in existing then 0
    else 1 + FirstExisting(candidates[1..], existing)
  }

  /** The path the script loads: the first existing candidate, else the fallback. */
  function SelectedPath(candidates: seq<string>, fallback: string, existing: set<string>): string {
    var k := FirstExisting(candidates, existing);
    if k < |candidates| then candidates[k] else fallback
  }

  /**
   * The first existing candidate wins, in list order, and the fallback
   * (the environment's path) is used only when no candidate exists.
   */
  lemma SelectedPathFirstWins(candidates: seq<string>, fallback: string, existing: set<string>, i: nat)
    requires i < |candidates| && candidates[i] in existing
    requires forall j :: 0 <= j < i ==> candidates[j] !in existing
    ensures SelectedPath(candidates, fallback, existing) == candidates[i]
  {
  }

  lemma SelectedPathFallback(candidates: seq<string>, fallback: string, existing: set<string>)
    ensures (forall j :: 0 <= j < |candidates| ==> candidates[j] !in existing)
            <==> SelectedPath(candidates, fallback, existing) == fallback && FirstExisting(candidates, existing) == |candidates|
  {
  }

  /** The path-selection loop: start from the fallback, replace it by the first existing candidate and stop. */
  method ChooseManifestPath(candidates: seq<string>, fallback: string, existing: set<string>) returns (path: string)
    ensures path == SelectedPath(candidates, fallback, existing)
  {
    path := fallback;
    var i := 0;
    while i < |candidates|
      invariant 0 <= i <= |candidates|
      invariant forall j :: 0 <= j < i ==> candidates[j] !in existing
      invariant path == fallback
    {
      if candidates[i] in existing {
        path := candidates[i];
        SelectedPathFirstWins(candidates, fallback, existing, i);
        break;
      }
      i := i + 1;
    }
  }

  /** The manifest MAC set the script builds for a given environment and file system. */
  function ManifestMacsFor(env: Environment, files: ManifestFiles): set<string> {
    var path := SelectedPath(ManifestCandidates, env.deviceManifest.GetOr(DefaultManifestPath), files.Keys);
    ManifestMacs(DevicesOf(LoadManifest(files, path)))
  }

  /** A live device is a rogue when its normalised MAC is non-empty and not in the manifest. */
  predicate IsRogue(macs: set<string>, d: DeviceRecord) {
    var mac := NormalizeMac(d.mac);
    mac != "" && mac !in macs
  }

  function AsRogue(d: DeviceRecord): Rogue {
    Rogue(d.name, NormalizeMac(d.mac), InfrastructureKind)
  }

  /** The rogue list built by the device loop, as a function of the live devices. */
  function RoguesOf(macs: set<string>, live: seq<DeviceRecord>): (rogues: seq<Rogue>)
    ensures |rogues| <= |live|
    ensures forall k :: 0 <= k < |rogues| ==>
      rogues[k].mac != "" && rogues[k].mac !in macs && NoUpper(rogues[k].mac) && rogues[k].kind == InfrastructureKind
    decreases |live|
  {
    if live == [] then []
    else
      var last := live[|live| - 1];
      RoguesOf(macs, live[..|live| - 1]) + (if IsRogue(macs, last) then [AsRogue(last)] else [])
  }

  /**
   * The positions of the live devices that are reported: strictly increasing,
   * each a rogue position, and the k-th rogue comes from the k-th of them;
   * `RogueIndicesComplete` adds that every rogue position is among them. So
   * the rogue list is the order-preserving filter of the live list, with no
   * de-duplication.
   */
  ghost function RogueIndices(macs: set<string>, live: seq<DeviceRecord>): (idx: seq<int>)
    ensures |idx| == |RoguesOf(macs, live)|
    ensures forall k :: 0 <= k < |idx| ==> 0 <= idx[k] < |live| && RoguesOf(macs, live)[k] == AsRogue(live[idx[k]])
    ensures forall k :: 0 <= k < |idx| ==> IsRogue(macs, live[idx[k]])
    ensures forall k, l :: 0 <= k < l < |idx| ==> idx[k] < idx[l]
    decreases |live|
  {
    if live == [] then []
    else
      var n := |live| - 1;
      var front := live[..n];
      var prev := RogueIndices(macs, front);
      assert forall i :: 0 <= i < n ==> live[i] == front[i];
      assert RoguesOf(macs, live) == RoguesOf(macs, front) + (if IsRogue(macs, live[n]) then [AsRogue(live[n])] else []);
      prev + (if IsRogue(macs, live[n]) then [n] else [])
  }

  /** Every rogue position is among the reported positions. */
  lemma {:induction false} RogueIndicesComplete(macs: set<string>, live: seq<DeviceRecord>, i: int)
    requires 0 <= i < |live| && IsRogue(macs, live[i])
    ensures i in RogueIndices(macs, live)
    decreases |live|
  {
    var n := |live| - 1;
    var front := live[..n];
    assert RogueIndices(macs, live) == RogueIndices(macs, front) + (if IsRogue(macs, live[n]) then [n] else []);
    if i < n {
      assert front[i] == live[i];
      RogueIndicesComplete(macs, front, i);
    }
  }

  /** Every live device with a non-empty MAC absent from the manifest is reported. */
  lemma RoguesComplete(macs: set<string>, live: seq<DeviceRecord>, i: int)
    requires 0 <= i < |live| && IsRogue(macs, live[i])
    ensures AsRogue(live[i]) in RoguesOf(macs, live)
  {
    RogueIndicesComplete(macs, live, i);
    var idx := RogueIndices(macs, live);
    var k :| 0 <= k < |idx| && idx[k] == i;
    assert RoguesOf(macs, live)[k] == AsRogue(live[i]);
  }

  /** A manifest covering every non-empty live MAC gives no rogues; devices without a MAC are skipped. */
  lemma {:induction false} AllKnownNoRogues(macs: set<string>, live: seq<DeviceRecord>)
    requires forall i :: 0 <= i < |live| && NormalizeMac(live[i].mac) != "" ==> NormalizeMac(live[i].mac) in macs
    ensures RoguesOf(macs, live) == []
    decreases |live|
  {
    if live != [] {
      AllKnownNoRogues(macs, live[..|live| - 1]);
    }
  }

  /** The device loop of the script. */
  method FindRogues(macs: set<string>, live: seq<DeviceRecord>) returns (rogues: seq<Rogue>)
    ensures rogues == RoguesOf(macs, live)
  {
    rogues := [];
    for i := 0 to |live|
      invariant rogues == RoguesOf(macs, live[..i])
    {
      assert live[..i + 1][..i] == live[..i];
      var mac := NormalizeMac(live[i].mac);
      if mac != "" && mac !in macs {
        rogues := rogues + [Rogue(live[i].name, mac, InfrastructureKind)];
      }
    }
    assert live[..|live|] == live;
  }

  /** The client loop of the script: it normalises each client's MAC and records nothing. */
  method InspectClients(macs: set<string>, clients: seq<ClientRecord>, rogues: seq<Rogue>) returns (after: seq<Rogue>)
    ensures after == rogues
  {
    after := rogues;
    for i := 0 to |clients|
      invariant after == rogues
    {
      var mac := NormalizeMac(clients[i].mac);
      if mac != "" && mac !in macs {
        // No known-client list exists, so an unknown client is not reported.
      }
    }
  }

  /** All three credentials are present and non-empty. */
  predicate HasCredentials(env: Environment) {
    Truthy(env.host) && Truthy(env.user) && Truthy(env.password)
  }

  /** The outcome of a run, as a function of its inputs. */
  function Verdict(env: Environment, files: ManifestFiles, live: LiveState): Outcome {
    if !HasCredentials(env) then SkippedMissingCredentials
    else match live
      case Unreachable => ControllerError
      case Live(devices, _) =>
        var rogues := RoguesOf(ManifestMacsFor(env, files), devices);
        if rogues == [] then NoRogues else RoguesFound(rogues)
  }

  /** Exit status: 0 for a skip or a clean run, 1 for rogues or a controller error. */
  function ExitCode(o: Outcome): (code: int)
    ensures code == 0 <==> o.SkippedMissingCredentials? || o.NoRogues?
    ensures code == 0 || code == 1
  {
    match o
    case SkippedMissingCredentials => 0
    case ControllerError => 1
    case NoRogues => 0
    case RoguesFound(_) => 1
  }

  /** `main`: choose and load the manifest, check credentials, reconcile, decide. */
  method DetectAnomalies(env: Environment, files: ManifestFiles, live: LiveState) returns (outcome: Outcome, code: int)
    ensures outcome == Verdict(env, files, live)
    ensures code == ExitCode(outcome)
  {
    var path := ChooseManifestPath(ManifestCandidates, env.deviceManifest.GetOr(DefaultManifestPath), files.Keys);
    var manifestMacs := ManifestMacs(DevicesOf(LoadManifest(files, path)));
    if !(Truthy(env.host) && Truthy(env.user) && Truthy(env.password)) {
      outcome := SkippedMissingCredentials;
    } else if live.Unreachable? {
      outcome := ControllerError;
    } else {
      var rogues := FindRogues(manifestMacs, live.devices);
      rogues := InspectClients(manifestMacs, live.clients, rogues);
      outcome := if rogues != [] then RoguesFound(rogues) else NoRogues;
    }
    code := ExitCode(outcome);
  }

  /** Missing credentials skip the run with status 0, whatever the controller would have answered. */
  lemma MissingCredentialsSkip(env: Environment, files: ManifestFiles, live: LiveState)
    requires !Truthy(env.host) || !Truthy(env.user) || !Truthy(env.password)
    ensures Verdict(env, files, live) == SkippedMissingCredentials
    ensures ExitCode(Verdict(env, files, live)) == 0
  {
  }

  /** With credentials, the run fails exactly when some live device is a rogue. */
  lemma FailsIffRogue(env: Environment, files: ManifestFiles, devices: seq<DeviceRecord>, clients: seq<ClientRecord>)
    requires HasCredentials(env)
    ensures ExitCode(Verdict(env, files, Live(devices, clients))) == 1
            <==> exists i :: 0 <= i < |devices| && IsRogue(ManifestMacsFor(env, files), devices[i])
  {
    var macs := ManifestMacsFor(env, files);
    if RoguesOf(macs, devices) != [] {
      var idx := RogueIndices(macs, devices);
      assert IsRogue(macs, devices[idx[0]]);
    }
    if exists i :: 0 <= i < |devices| && IsRogue(macs, devices[i]) {
      var i :| 0 <= i < |devices| && IsRogue(macs, devices[i]);
      RoguesComplete(macs, devices, i);
    }
  }

  /** Live clients never change the outcome. */
  lemma ClientsIgnored(env: Environment, files: ManifestFiles, devices: seq<DeviceRecord>, c1: seq<ClientRecord>, c2: seq<ClientRecord>)
    ensures Verdict(env, files, Live(devices, c1)) == Verdict(env, files, Live(devices, c2))
  {
  }

  /** The fixture MACs, normalised. */
  lemma FixtureMacs()
    ensures NormalizeMac(Some("00:11:22:33:44:55")) == "00:11:22:33:44:55"
    ensures NormalizeMac(Some("AA:BB:CC:DD:EE:FF")) == "aa:bb:cc:dd:ee:ff"
  {
    assert NoUpper("00:11:22:33:44:55");
    var up := "AA:BB:CC:DD:EE:FF";
    var low := Lower(up);
    forall i | 0 <= i < |up| ensures low[i] == "aa:bb:cc:dd:ee:ff"[i] {
    }
  }

  /** MAC comparison ignores case: an upper-case live MAC matches its lower-case manifest entry. */
  lemma CaseInsensitiveMatch()
    ensures !IsRogue({"aa:bb:cc:dd:ee:ff"}, DeviceRecord(Some("ACCESS-POINT-01"), Some("AA:BB:CC:DD:EE:FF")))
  {
    FixtureMacs();
  }

  /** The manifest of the integration fixture lists only CORE-GATEWAY. */
  lemma FixtureManifestMacs(env: Environment, files: ManifestFiles)
    requires files == map["inventory/device-manifest.yml" :=
      Some(Manifest(Some(DeviceList([DeviceRecord(Some("CORE-GATEWAY"), Some("00:11:22:33:44:55"))]))))]
    ensures ManifestMacsFor(env, files) == {"00:11:22:33:44:55"}
  {
    assert FirstExisting(ManifestCandidates, files.Keys) == 0;
    FixtureMacs();
  }

  /**
   * The integration fixture: the mock controller reports CORE-GATEWAY (in
   * the manifest) and ACCESS-POINT-01 (not in it, upper-case MAC) and one
   * client; exactly ACCESS-POINT-01 is reported and the run exits 1.
   */
  lemma MockControllerScenario(env: Environment, files: ManifestFiles)
    requires HasCredentials(env)
    requires files == map["inventory/device-manifest.yml" :=
      Some(Manifest(Some(DeviceList([DeviceRecord(Some("CORE-GATEWAY"), Some("00:11:22:33:44:55"))]))))]
    ensures
      var live := Live(
        [DeviceRecord(Some("CORE-GATEWAY"), Some("00:11:22:33:44:55")),
         DeviceRecord(Some("ACCESS-POINT-01"), Some("AA:BB:CC:DD:EE:FF"))],
        [ClientRecord(Some("IOT-DEVICE-01"), Some("11:22:33:44:55:66"))]);
      Verdict(env, files, live) == RoguesFound([Rogue(Some("ACCESS-POINT-01"), "aa:bb:cc:dd:ee:ff", InfrastructureKind)])
      && ExitCode(Verdict(env, files, live)) == 1
  {
    FixtureManifestMacs(env, files);
    FixtureMacs();
    var gateway := DeviceRecord(Some("CORE-GATEWAY"), Some("00:11:22:33:44:55"));
    var ap := DeviceRecord(Some("ACCESS-POINT-01"), Some("AA:BB:CC:DD:EE:FF"));
    var macs := {"00:11:22:33:44:55"};
    assert [gateway, ap][..1] == [gateway];
    assert [gateway][..0] == [];
    assert RoguesOf(macs, [gateway]) == [];
  }
}
