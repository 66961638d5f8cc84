/** Device matching (DeviceUtils.FindMatchingDevice and SelectRandomDevice):
    a request is resolved by id, else by type, else by name, else by
    properties, and a random member of the resulting list is taken. */
module Matcher {
  import opened Wrappers
  import opened Models
  import opened Glob
  import opened Store

  /** LINQ Where: the elements satisfying p, in order. */
  function Where<T(!new)>(s: seq<T>, p: T -> bool): (r: seq<T>)
    ensures |r| <= |s|
    ensures forall x :: x in r <==> x in s && p(x)
  {
    if s == [] then []
    else Where(s[..|s| - 1], p) + (if p(s[|s| - 1]) then [s[|s| - 1]] else [])
  }

  lemma WhereEmpty<T(!new)>(s: seq<T>, p: T -> bool)
    ensures Where(s, p) == [] <==> forall i :: 0 <= i < |s| ==> !p(s[i])
  {
    if Where(s, p) != [] {
      assert Where(s, p)[0] in Where(s, p);
    }
  }

  /** SelectRandomDevice: the list is shuffled and its first element, if any,
      is taken; the environment decides which element comes first. */
  function SelectRandomDevice(devices: seq<Device>, shuffle: seq<Device> -> nat): (r: Option<Device>)
    ensures r.Some? ==> r.value in devices
    ensures r.None? <==> devices == []
  {
    if devices == [] then None else Some(devices[shuffle(devices) % |devices|])
  }

  /** No element is out of reach of the shuffle. */
  lemma EveryDeviceCanBeSelected(devices: seq<Device>, k: nat)
    requires k < |devices|
    ensures SelectRandomDevice(devices, _ => k) == Some(devices[k])
  {
  }

  /** One requested property against a device: a value with "*" or "?" must
      match some same-key device value as a wildcard pattern, any other value
      must equal some same-key device value. */
  predicate PropertyMatches(d: Device, requested: DeviceProperty) {
    if HasWildcard(requested.value) then
      exists p :: p in d.properties && p.key == requested.key && IsWildCardMatch(p.value, requested.value)
    else
      exists p :: p in d.properties && p.key == requested.key && p.value == requested.value
  }

  /** The property filter as the source computes it: the flag is overwritten
      for every requested property, so only the last one decides. */
  predicate LastPropertyMatches(d: Device, requested: seq<DeviceProperty>) {
    |requested| > 0 && PropertyMatches(d, requested[|requested| - 1])
  }

  /** The reading of the design: every requested property must match. */
  predicate AllPropertiesMatch(d: Device, requested: seq<DeviceProperty>) {
    forall i :: 0 <= i < |requested| ==> PropertyMatches(d, requested[i])
  }

  /** Which devices a request accepts, by the fixed precedence. */
  predicate Accepts(req: RequestedDevice, d: Device) {
    if req.deviceId.Some? then d.id == req.deviceId.value
    else if req.deviceType != Unspecified then d.deviceType == req.deviceType
    else if req.deviceName != "" then d.name == req.deviceName
    else LastPropertyMatches(d, req.properties)
  }

  /** FindMatchingDevice over the stored devices. An id request reads that
      record as it is, whatever its availability; every other request picks
      among the accepted devices, and gets null exactly when there are none. */
  function MatchDevice(pool: seq<Device>, req: RequestedDevice, shuffle: seq<Device> -> nat): (r: Option<Device>)
    ensures r.Some? ==> r.value in pool && Accepts(req, r.value)
    ensures r.None? <==> forall i :: 0 <= i < |pool| ==> !Accepts(req, pool[i])
    ensures req.deviceId.Some? ==> r == FindDevice(pool, req.deviceId.value)
  {
    if req.deviceId.Some? then FindDevice(pool, req.deviceId.value)
    else if req.deviceType != Unspecified then
      var p := (d: Device) => d.deviceType == req.deviceType;
      WhereEmpty(pool, p);
      SelectRandomDevice(Where(pool, p), shuffle)
    else if req.deviceName != "" then
      var p := (d: Device) => d.name == req.deviceName;
      WhereEmpty(pool, p);
      SelectRandomDevice(Where(pool, p), shuffle)
    else if req.properties != [] then
      var p := (d: Device) => LastPropertyMatches(d, req.properties);
      WhereEmpty(pool, p);
      SelectRandomDevice(Where(pool, p), shuffle)
    else None
  }

  /** Whether a request finds a device does not depend on the shuffle. */
  lemma MatchFoundIndependentOfShuffle(pool: seq<Device>, req: RequestedDevice, s1: seq<Device> -> nat, s2: seq<Device> -> nat)
    ensures MatchDevice(pool, req, s1).Some? <==> MatchDevice(pool, req, s2).Some?
  {
  }

  /** Only the last requested property counts: whatever comes before it. */
  lemma OnlyLastPropertyCounts(d: Device, earlier: seq<DeviceProperty>, last: DeviceProperty)
    ensures LastPropertyMatches(d, earlier + [last]) <==> PropertyMatches(d, last)
  {
  }

  /** The written filter accepts every device that matches all properties,
      and more: a device failing the first of two properties still matches. */
  lemma LastPropertyFilterIsWeakerThanAll()
    ensures forall d: Device, ps: seq<DeviceProperty> :: ps != [] && AllPropertiesMatch(d, ps) ==> LastPropertyMatches(d, ps)
    ensures exists d: Device, ps: seq<DeviceProperty> :: LastPropertyMatches(d, ps) && !AllPropertiesMatch(d, ps)
  {
    var d := Device("a", "A", Android, Online, true, "", [DeviceProperty("Model", "X")]);
    var ps := [DeviceProperty("Platform", "iOS"), DeviceProperty("Model", "X")];
    assert PropertyMatches(d, ps[1]) by {
      assert !HasWildcard("X") by { assert "X"[0] == 'X'; }
      assert d.properties[0] in d.properties;
    }
    assert !PropertyMatches(d, ps[0]) by {
      assert !HasWildcard("iOS") by { assert "iOS" == ['i', 'O', 'S']; }
    }
    assert LastPropertyMatches(d, ps) && !AllPropertiesMatch(d, ps);
  }

  /** The inner loop over a device's properties for a wildcard value. */
  method WildcardPropertyMatches(device: Device, requested: DeviceProperty) returns (matched: bool)
    requires HasWildcard(requested.value)
    ensures matched == PropertyMatches(device, requested)
  {
    matched := false;
    for k := 0 to |device.properties|
      invariant !matched
      invariant forall l :: 0 <= l < k ==>
        !(device.properties[l].key == requested.key && IsWildCardMatch(device.properties[l].value, requested.value))
    {
      var prop := device.properties[k];
      if prop.key == requested.key {
        if IsWildCardMatch(prop.value, requested.value) {
          matched := true;
          return;
        }
      }
    }
  }

  /** The body of the outer loop: the match flag after all requested
      properties have been examined. */
  method DeviceMatchesProperties(device: Device, requested: seq<DeviceProperty>) returns (matched: bool)
    ensures matched == LastPropertyMatches(device, requested)
  {
    matched := false;
    for j := 0 to |requested|
      invariant matched == (j > 0 && PropertyMatches(device, requested[j - 1]))
    {
      var rp := requested[j];
      if HasWildcard(rp.value) {
        matched := WildcardPropertyMatches(device, rp);
      } else {
        matched := exists p :: p in device.properties && p.key == rp.key && p.value == rp.value;
      }
    }
  }

  method FindMatchingDevice(req: RequestedDevice, client: Store, env: Env) returns (r: Option<Device>)
    ensures r == MatchDevice(client.devices, req, env.shuffle)
  {
    if req.deviceId.Some? {
      r := client.GetDevice(req.deviceId.value);
      return;
    }
    if req.deviceType != Unspecified {
      var allDevices := client.GetDevices();
      r := SelectRandomDevice(Where(allDevices, (d: Device) => d.deviceType == req.deviceType), env.shuffle);
      return;
    }
    if req.deviceName != "" {
      var allDevices := client.GetDevices();
      r := SelectRandomDevice(Where(allDevices, (d: Device) => d.name == req.deviceName), env.shuffle);
      return;
    }
    if |req.properties| > 0 {
      var allDevices := client.GetDevices();
      var matchingDevices: seq<Device> := [];
      for i := 0 to |allDevices|
        invariant matchingDevices == Where(allDevices[..i], (d: Device) => LastPropertyMatches(d, req.properties))
      {
        var device := allDevices[i];
        var matched := DeviceMatchesProperties(device, req.properties);
        if matched {
          matchingDevices := matchingDevices + [device];
        }
        assert allDevices[..i + 1][..i] == allDevices[..i];
      }
      assert allDevices[..|allDevices|] == allDevices;
      r := SelectRandomDevice(matchingDevices, env.shuffle);
      return;
    }
    r := None;
  }
}
