/** DevicesController: the guards of Create, Update, Delete and RestartDevice,
    the list of property keys, and the Selenium configuration text built for
    a device. */
module DevicesController {
  import opened Wrappers
  import opened Models
  import opened Store
  import opened Http

  // ---------------------------------------------------------------------
  // Create, Update, Delete, RestartDevice

  /** Create: a missing body is 400; an id already stored is 409, checked
      before the empty-value check; an empty Id or Name is 400; otherwise the
      device is added. */
  method Create(body: Option<Device>, client: Store) returns (r: Response<Device>)
    modifies client
    ensures body.None? ==> r == ClientError(400, "Empty device in request") && client.State() == old(client.State())
    ensures body.Some? && FindDevice(old(client.devices), body.value.id).Some? ==>
      r == ClientError(409, "Device ID already stored in database.") && client.State() == old(client.State())
    ensures body.Some? && FindDevice(old(client.devices), body.value.id).None? && (body.value.id == "" || body.value.name == "") ==>
      r == ClientError(400, "Device Id and Name has to be specified.") && client.State() == old(client.State())
    ensures body.Some? && FindDevice(old(client.devices), body.value.id).None? && body.value.id != "" && body.value.name != "" ==>
      r == Created(body.value) && client.State() == old(client.State()).(devices := old(client.devices) + [body.value])
  {
    if body.None? {
      return ClientError(400, "Empty device in request");
    }
    var device := body.value;
    var stored := client.GetDevice(device.id);
    if stored.Some? {
      return ClientError(409, "Device ID already stored in database.");
    }
    if device.id == "" || device.name == "" {
      return ClientError(400, "Device Id and Name has to be specified.");
    }
    client.AddDevice(device);
    r := Created(device);
  }

  /** What Create adds keeps the ids of the device table unique, and the new
      device reads back by its id. */
  lemma CreateKeepsUniqueIds(devices: seq<Device>, d: Device)
    requires UniqueIds(devices) && FindDevice(devices, d.id).None?
    ensures UniqueIds(devices + [d])
    ensures FindDevice(devices + [d], d.id) == Some(d)
  {
    FindUnique(devices + [d], |devices|);
  }

  /** Update: a missing body or one whose id differs from the route id is
      400, an unknown id 404; otherwise the stored device is replaced by the
      body, whatever its availability or status. */
  method Update(id: string, body: Option<Device>, client: Store) returns (r: Response<Device>)
    modifies client
    ensures (body.None? || body.value.id != id) ==>
      r == ClientError(400, "Empty device in request") && client.State() == old(client.State())
    ensures body.Some? && body.value.id == id && FindDevice(old(client.devices), id).None? ==>
      r == ClientError(404, "Device not found in database.") && client.State() == old(client.State())
    ensures body.Some? && body.value.id == id && FindDevice(old(client.devices), id).Some? ==>
      r == Success(body.value) && client.State() == old(client.State()).(devices := ReplaceDevice(old(client.devices), body.value))
  {
    if body.None? || body.value.id != id {
      return ClientError(400, "Empty device in request");
    }
    var device := client.GetDevice(id);
    if device.None? {
      return ClientError(404, "Device not found in database.");
    }
    var _ := client.UpdateDevice(body.value);
    r := Success(body.value);
  }

  /** Without an availability check, Update can make a Locked device
      available, breaking the rule the lock procedures keep. */
  lemma UpdateCanUnlockALockedDevice()
    ensures var locked := Device("d1", "phone", Android, Locked, false, "", []);
      var body := locked.(available := true);
      && LockConsistent(locked)
      && FindDevice(ReplaceDevice([locked], body), "d1") == Some(body)
      && !LockConsistent(body)
  {
    var locked := Device("d1", "phone", Android, Locked, false, "", []);
    FindAfterReplace([locked], locked.(available := true), "d1");
  }

  /** Delete: an unknown id is 404; a Locked or LockedOffline device is 423;
      otherwise the device is removed. */
  method Delete(id: string, client: Store) returns (r: Response<Device>)
    modifies client
    ensures FindDevice(old(client.devices), id).None? ==>
      r == ClientError(404, "Device not found in database.") && client.State() == old(client.State())
    ensures FindDevice(old(client.devices), id).Some? ==>
      var d := FindDevice(old(client.devices), id).value;
      && ((d.status == Locked || d.status == LockedOffline) ==>
            r == ClientError(423, "Device is locked.") && client.State() == old(client.State()))
      && (!(d.status == Locked || d.status == LockedOffline) ==>
            r == SuccessEmpty && client.State() == old(client.State()).(devices := RemoveDevice(old(client.devices), id)))
  {
    var device := client.GetDevice(id);
    if device.None? {
      return ClientError(404, "Device not found in database.");
    }
    if device.value.status == Locked || device.value.status == LockedOffline {
      return ClientError(423, "Device is locked.");
    }
    client.RemoveDeviceById(id);
    r := SuccessEmpty;
  }

  /** Removing a device leaves no record with its id and keeps every other. */
  lemma RemoveDeviceEffect(devices: seq<Device>, id: string)
    ensures FindDevice(RemoveDevice(devices, id), id).None?
    ensures forall d :: d in devices && d.id != id ==> d in RemoveDevice(devices, id)
  {
  }

  /** RestartDevice: an unknown id is 404, an unavailable device 423, a
      non-empty output of the restart command 500; the restart command's
      output is a parameter. */
  function RestartResponse(devices: seq<Device>, id: string, restartOutput: string): (r: Response<Device>)
    ensures r == SuccessEmpty <==> FindDevice(devices, id).Some? && FindDevice(devices, id).value.available && restartOutput == ""
    ensures r.ClientError? && r.code == 423 <==> FindDevice(devices, id).Some? && !FindDevice(devices, id).value.available
    ensures r.ServerError? ==> restartOutput != "" && r.message == "Failed to restart device. [" + restartOutput + "]"
  {
    match FindDevice(devices, id)
    case None => ClientError(404, "Device not found in database.")
    case Some(device) =>
      if !device.available then ClientError(423, "Device is locked.")
      else if restartOutput != "" then ServerError("Failed to restart device. [" + restartOutput + "]")
      else SuccessEmpty
  }

  // ---------------------------------------------------------------------
  // GetAllPropertiesKeys

  /** The properties of all devices, in pool order. */
  function AllProperties(devices: seq<Device>): (ps: seq<DeviceProperty>)
    ensures forall p :: p in ps <==> exists i :: 0 <= i < |devices| && p in devices[i].properties
  {
    if devices == [] then []
    else
      var ps := AllProperties(devices[..|devices| - 1]);
      assert forall i :: 0 <= i < |devices| - 1 ==> devices[..|devices| - 1][i] == devices[i];
      ps + devices[|devices| - 1].properties
  }

  /** The keys of the properties, in order. */
  function Keys(ps: seq<DeviceProperty>): (ks: seq<string>)
    ensures |ks| == |ps| && forall i :: 0 <= i < |ps| ==> ks[i] == ps[i].key
  {
    if ps == [] then [] else [ps[0].key] + Keys(ps[1..])
  }

  /** LINQ Distinct: the first occurrence of each value, in order. */
  function Distinct(s: seq<string>): (r: seq<string>)
    ensures forall x :: x in r <==> x in s
    ensures forall i, j :: 0 <= i < j < |r| ==> r[i] != r[j]
  {
    if s == [] then []
    else
      var r := Distinct(s[..|s| - 1]);
      assert forall x :: x in s <==> x in s[..|s| - 1] || x == s[|s| - 1];
      if s[|s| - 1] in s[..|s| - 1] then r else r + [s[|s| - 1]]
  }

  /** GetAllPropertiesKeys: the properties of every device are gathered and
      their keys taken once each, in order of first appearance; a key is in
      the answer exactly when some device has a property with that key. */
  method GetAllPropertiesKeys(client: Store) returns (keys: seq<string>)
    ensures keys == Distinct(Keys(AllProperties(client.devices)))
    ensures forall k :: k in keys <==> exists i, p :: 0 <= i < |client.devices| && p in client.devices[i].properties && p.key == k
    ensures forall i, j :: 0 <= i < j < |keys| ==> keys[i] != keys[j]
  {
    var devices := client.GetDevices();
    var properties: seq<DeviceProperty> := [];
    for i := 0 to |devices|
      invariant properties == AllProperties(devices[..i])
    {
      assert devices[..i + 1][..i] == devices[..i];
      properties := properties + devices[i].properties;
    }
    assert devices[..|devices|] == devices;
    var ks := Keys(properties);
    keys := Distinct(ks);
    forall k | k in keys ensures exists i, p :: 0 <= i < |devices| && p in devices[i].properties && p.key == k {
      var m :| 0 <= m < |ks| && ks[m] == k;
      assert properties[m] in properties;
    }
    forall k | exists i, p :: 0 <= i < |devices| && p in devices[i].properties && p.key == k ensures k in keys {
      var i, p :| 0 <= i < |devices| && p in devices[i].properties && p.key == k;
      assert p in properties;
      var m :| 0 <= m < |properties| && properties[m] == p;
      assert ks[m] == k;
    }
  }

  // ---------------------------------------------------------------------
  // Selenium configuration

  /** StringBuilder.AppendLine over the given lines, with "\n" as the line
      terminator. */
  function Lines(ls: seq<string>): string {
    if ls == [] then "" else ls[0] + "\n" + Lines(ls[1..])
  }

  /** Splitting the text at "\n" gives back the lines when none of them holds
      a line break. */
  function SplitLines(text: string): seq<string>
    decreases |text|
  {
    if text == [] then []
    else
      var k := LineEnd(text);
      if k == |text| then [text] else [text[..k]] + SplitLines(text[k + 1..])
  }

  /** The index of the first "\n", or the length when there is none. */
  function LineEnd(text: string): (k: nat)
    ensures k <= |text| && (k < |text| ==> text[k] == '\n') && forall i :: 0 <= i < k ==> text[i] != '\n'
  {
    if text == [] then 0 else if text[0] == '\n' then 0 else 1 + LineEnd(text[1..])
  }

  lemma {:induction false} SplitLinesInverse(ls: seq<string>)
    requires forall i, j :: 0 <= i < |ls| && 0 <= j < |ls[i]| ==> ls[i][j] != '\n'
    ensures SplitLines(Lines(ls)) == ls
    decreases |ls|
  {
    if ls != [] {
      var text := Lines(ls);
      var head := ls[0];
      assert text == head + "\n" + Lines(ls[1..]);
      LineEndAt(head, Lines(ls[1..]));
      assert text[..|head|] == head;
      assert text[|head| + 1..] == Lines(ls[1..]);
      SplitLinesInverse(ls[1..]);
    }
  }

  lemma {:induction false} LineEndAt(head: string, rest: string)
    requires forall j :: 0 <= j < |head| ==> head[j] != '\n'
    ensures LineEnd(head + "\n" + rest) == |head|
    decreases |head|
  {
    if head != [] {
      assert (head + "\n" + rest)[1..] == head[1..] + "\n" + rest;
      LineEndAt(head[1..], rest);
    }
  }

  /** Enumerable.First on the properties: the first one with that key. */
  function FirstWithKey(ps: seq<DeviceProperty>, key: string): (r: Option<DeviceProperty>)
    ensures r.None? <==> forall i :: 0 <= i < |ps| ==> ps[i].key != key
    ensures r.Some? ==> exists k :: 0 <= k < |ps| && ps[k] == r.value && r.value.key == key
                         && forall i :: 0 <= i < k ==> ps[i].key != key
  {
    if ps == [] then None
    else if ps[0].key == key then Some(ps[0])
    else
      var r := FirstWithKey(ps[1..], key);
      assert forall i :: 1 <= i < |ps| ==> ps[i] == ps[1..][i - 1];
      r
  }

  /** The first two lines of both configurations. */
  function HeaderLines(d: Device): seq<string> {
    ["[mobile-manager-" + d.id + "]", if d.appiumEndpoint != "" then "url = " + d.appiumEndpoint else "url = "]
  }

  /** CreateIosSeleniumConfig: raises when the device has no ProductVersion
      property. */
  function IosConfig(d: Device, teamId: string): Result<seq<string>, Failure> {
    match FirstWithKey(d.properties, "ProductVersion")
    case None => Err(ProductVersionMissing(d.id))
    case Some(version) =>
      Ok(HeaderLines(d) + IosSettings(d, version.value, teamId))
  }

  /** Where the Selenium grid host keeps deviceconsole and WebDriverAgent. */
  const RealDeviceLogger: string := "/usr/local/lib/node_modules/deviceconsole/deviceconsole"
  const WebDriverAgentPath: string := "/usr/local/lib/node_modules/appium/node_modules/appium-xcuitest-driver/WebDriverAgent"

  /** The lines of the iOS configuration after the header. */
  function IosSettings(d: Device, version: string, teamId: string): seq<string> {
      ["browserName = safari_mobile",
        "platformName = iOS",
        "udid = " + d.id,
        "deviceName = \"" + d.name + "\"",
        "deviceVersion = " + version,
        "automationName = XCUITest",
        "teamId = " + teamId,
        "signingId = \"iPhone Developer\"",
        "showXcodeLog: true",
        "realDeviceLogger = " + RealDeviceLogger,
        "bootstrapPath = " + WebDriverAgentPath,
        "agentPath = " + WebDriverAgentPath + "/WebDriverAgent.xcodeproj",
        "sessionTimeout = 6000",
        "startIWDP: true"]
  }

  /** CreateAndroidSeleniumConfig; the deviceName line ends with a space. */
  function AndroidConfig(d: Device): seq<string> {
    HeaderLines(d) + [
      "browserName = chrome_mobile",
      "platformName = android",
      "udid = " + d.id,
      "deviceName = \"" + d.name + "\" ",
      "sessionTimeout = 6000"]
  }

  /** The configuration lines of a device by its type: None for an
      unspecified type, an error for an iOS device without ProductVersion. */
  function DeviceConfig(d: Device, teamId: string): Option<Result<seq<string>, Failure>> {
    match d.deviceType
    case IOS => Some(IosConfig(d, teamId))
    case Android => Some(Ok(AndroidConfig(d)))
    case Unspecified => None
  }

  /** GetSeleniumConfigById: 404 for an unknown id, the configuration of the
      device's type, 400 for an unspecified type; a missing ProductVersion on
      an iOS device surfaces as a 500. */
  function SeleniumConfigResponse(devices: seq<Device>, id: string, teamId: string): Response<string> {
    match FindDevice(devices, id)
    case None => ClientError(404, "Device not found in database.")
    case Some(device) =>
      match DeviceConfig(device, teamId)
      case None => ClientError(400, "Unsupported device type")
      case Some(Ok(ls)) => Success(Lines(ls))
      case Some(Err(_)) => ServerError("Sequence contains no matching element")
  }

  /** The url line is "url = " followed by the endpoint, empty or not. */
  lemma UrlLine(d: Device)
    ensures HeaderLines(d)[1] == "url = " + d.appiumEndpoint
  {
    if d.appiumEndpoint == "" {
      assert "url = " + d.appiumEndpoint == "url = ";
    }
  }

  /** Both configurations start with the section header and the url line,
      the url being the endpoint (empty when there is none). */
  lemma DeviceConfigHeader(d: Device, teamId: string)
    ensures var c := DeviceConfig(d, teamId);
      c.Some? && c.value.Ok? ==>
        "[mobile-manager-" + d.id + "]" + "\n" + ("url = " + d.appiumEndpoint) + "\n" <= Lines(c.value.value)
  {
    var c := DeviceConfig(d, teamId);
    if c.Some? && c.value.Ok? {
      UrlLine(d);
      var ls := c.value.value;
      assert ls[..2] == HeaderLines(d);
      var h := ls[0] + "\n" + ls[1] + "\n";
      assert Lines(ls) == h + Lines(ls[2..]) by {
        assert Lines(ls) == ls[0] + "\n" + Lines(ls[1..]);
        assert ls[1..][1..] == ls[2..];
      }
      assert (h + Lines(ls[2..]))[..|h|] == h;
    }
  }

  /** The iOS configuration fails exactly when the device has no
      ProductVersion property, and only an unspecified type has none. */
  lemma DeviceConfigErrors(d: Device, teamId: string)
    ensures DeviceConfig(d, teamId).None? <==> d.deviceType == Unspecified
    ensures (DeviceConfig(d, teamId).Some? && DeviceConfig(d, teamId).value.Err?) <==>
      d.deviceType == IOS && forall i :: 0 <= i < |d.properties| ==> d.properties[i].key != "ProductVersion"
  {
  }

  /** A configuration is served only for a stored device with a type, and
      starts with its header and url lines; 500 means an iOS device without
      ProductVersion and 400 an unspecified type. */
  lemma SeleniumConfigShape(devices: seq<Device>, id: string, teamId: string)
    ensures var r := SeleniumConfigResponse(devices, id, teamId);
      && (r.Success? ==>
            && FindDevice(devices, id).Some?
            && FindDevice(devices, id).value.deviceType != Unspecified
            && "[mobile-manager-" + id + "]" + "\n" + ("url = " + FindDevice(devices, id).value.appiumEndpoint) + "\n" <= r.body)
      && (r.ServerError? <==>
            FindDevice(devices, id).Some? && FindDevice(devices, id).value.deviceType == IOS
            && forall i :: 0 <= i < |FindDevice(devices, id).value.properties| ==>
                 FindDevice(devices, id).value.properties[i].key != "ProductVersion")
      && (r.ClientError? && r.code == 400 <==>
            FindDevice(devices, id).Some? && FindDevice(devices, id).value.deviceType == Unspecified)
  {
    var f := FindDevice(devices, id);
    if f.Some? {
      DeviceConfigHeader(f.value, teamId);
      DeviceConfigErrors(f.value, teamId);
    }
  }
}
