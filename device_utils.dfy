/** DeviceUtils: locking and unlocking one device for a reservation type, and
    the health reconciler that compares stored devices with the ids that are
    currently reachable. Each spec function gives what a call returns or
    raises and the device records afterwards; each method performs the reads
    and writes of the source and is proved to agree with its function. */
module DeviceUtils {
  import opened Wrappers
  import opened Models
  import opened Store

  /** What a lock or unlock call returns or raises, and the devices afterwards. */
  datatype DeviceCall = DeviceCall(result: Result<Device, Failure>, devices: seq<Device>)

  /** What UnlockDeviceByReservationType completes with, and the devices afterwards. */
  datatype UnlockCall = UnlockCall(outcome: Outcome<Failure>, devices: seq<Device>)

  // ---------------------------------------------------------------------
  // Specification of lock and unlock

  /** LockDeviceXcuiTest and LockDeviceManual: the stored device is marked
      unavailable and Locked and persisted; an unknown id raises KeyNotFound. */
  function LockPlain(devices: seq<Device>, id: string): (c: DeviceCall)
    ensures FindDevice(devices, id).None? <==> c.result.Err?
    ensures c.result.Err? ==> c.result.error == KeyNotFound(id) && c.devices == devices
    ensures c.result.Ok? ==>
      var d := FindDevice(devices, id).value;
      && c.result.value == d.(available := false, status := Locked)
      && FindDevice(c.devices, id) == Some(c.result.value)
    ensures forall x :: x != id ==> FindDevice(c.devices, x) == FindDevice(devices, x)
  {
    match FindDevice(devices, id)
    case None => DeviceCall(Err(KeyNotFound(id)), devices)
    case Some(d) =>
      var locked := d.(available := false, status := Locked);
      FindAfterReplaceAll(devices, locked);
      DeviceCall(Ok(locked), ReplaceDevice(devices, locked))
  }

  lemma FindAfterReplaceAll(devices: seq<Device>, d: Device)
    ensures forall x :: (FindDevice(ReplaceDevice(devices, d), x)
      == if x == d.id && FindDevice(devices, x).Some? then Some(d) else FindDevice(devices, x))
  {
    forall x { FindAfterReplace(devices, d, x); }
  }

  /** UnlockDeviceXcuiTest and UnlockDeviceManual: the stored device is marked
      available and Offline and persisted. */
  function UnlockPlain(devices: seq<Device>, id: string): (c: DeviceCall)
    ensures FindDevice(devices, id).None? <==> c.result.Err?
    ensures c.result.Err? ==> c.result.error == KeyNotFound(id) && c.devices == devices
    ensures c.result.Ok? ==>
      var d := FindDevice(devices, id).value;
      && c.result.value == d.(available := true, status := Offline)
      && FindDevice(c.devices, id) == Some(c.result.value)
    ensures forall x :: x != id ==> FindDevice(c.devices, x) == FindDevice(devices, x)
  {
    match FindDevice(devices, id)
    case None => DeviceCall(Err(KeyNotFound(id)), devices)
    case Some(d) =>
      var unlocked := d.(available := true, status := Offline);
      FindAfterReplaceAll(devices, unlocked);
      DeviceCall(Ok(unlocked), ReplaceDevice(devices, unlocked))
  }

  /** UnlockDeviceAppium: the device read from the store is marked available;
      when stopping the session reports false that copy is returned and
      nothing is persisted, otherwise the endpoint is cleared and the device is
      persisted Offline. */
  function UnlockAppium(devices: seq<Device>, id: string, env: Env): (c: DeviceCall)
    ensures FindDevice(devices, id).None? <==> c.result.Err?
    ensures c.result.Err? ==> c.result.error == KeyNotFound(id) && c.devices == devices
    ensures c.result.Ok? ==> c.result.value.available
    ensures c.result.Ok? && !env.stopSession(id) ==> c.devices == devices
    ensures c.result.Ok? && env.stopSession(id) ==>
      var d := FindDevice(devices, id).value;
      && c.result.value == d.(available := true, appiumEndpoint := "", status := Offline)
      && FindDevice(c.devices, id) == Some(c.result.value)
    ensures forall x :: x != id ==> FindDevice(c.devices, x) == FindDevice(devices, x)
  {
    match FindDevice(devices, id)
    case None => DeviceCall(Err(KeyNotFound(id)), devices)
    case Some(d) =>
      var released := d.(available := true);
      if !env.stopSession(id) then DeviceCall(Ok(released), devices)
      else
        var offline := released.(appiumEndpoint := "", status := Offline);
        FindAfterReplaceAll(devices, offline);
        DeviceCall(Ok(offline), ReplaceDevice(devices, offline))
  }

  /** LockDeviceAppium: as the plain lock, but the endpoint of the started
      session is stored too; when starting raises, the Appium unlock runs for
      the device and the failure is raised again (that unlock cannot raise
      itself, since the device was just read). */
  function LockAppium(devices: seq<Device>, id: string, env: Env): (c: DeviceCall)
    ensures FindDevice(devices, id).None? ==> c == DeviceCall(Err(KeyNotFound(id)), devices)
    ensures FindDevice(devices, id).Some? && env.startSession(id).None? ==>
      c.result == Err(SessionStartFailed(id)) && c.devices == UnlockAppium(devices, id, env).devices
    ensures FindDevice(devices, id).Some? && env.startSession(id).Some? ==> c.result.Ok?
    ensures c.result.Ok? ==>
      var d := FindDevice(devices, id).value;
      && c.result.value == d.(available := false, appiumEndpoint := env.startSession(id).value, status := Locked)
      && FindDevice(c.devices, id) == Some(c.result.value)
    ensures forall x :: x != id ==> FindDevice(c.devices, x) == FindDevice(devices, x)
  {
    match FindDevice(devices, id)
    case None => DeviceCall(Err(KeyNotFound(id)), devices)
    case Some(d) =>
      match env.startSession(id)
      case None =>
        DeviceCall(Err(SessionStartFailed(id)), UnlockAppium(devices, d.id, env).devices)
      case Some(endpoint) =>
        var locked := d.(available := false, appiumEndpoint := endpoint, status := Locked);
        FindAfterReplaceAll(devices, locked);
        DeviceCall(Ok(locked), ReplaceDevice(devices, locked))
  }

  /** The lock procedure a reservation type selects. It fails exactly for an
      unknown id, or for an Appium lock whose session does not start; an
      unknown id raises KeyNotFound and changes nothing. A successful lock
      hands back a Locked, unavailable device that is what the store now holds
      for that id; no other id is touched. */
  function LockByType(t: ReservationType, devices: seq<Device>, id: string, env: Env): (c: DeviceCall)
    ensures c.result.Err? <==> FindDevice(devices, id).None? || (t == Appium && env.startSession(id).None?)
    ensures FindDevice(devices, id).None? ==> c.result == Err(KeyNotFound(id)) && c.devices == devices
    ensures c.result.Ok? ==>
      && c.result.value.id == id && !c.result.value.available && c.result.value.status == Locked
      && FindDevice(c.devices, id) == Some(c.result.value)
    ensures forall x :: x != id ==> FindDevice(c.devices, x) == FindDevice(devices, x)
    ensures SameIds(devices, c.devices)
  {
    match t
    case Appium => LockAppium(devices, id, env)
    case XcuiTest => LockPlain(devices, id)
    case Manual => LockPlain(devices, id)
  }

  /** UnlockDeviceByReservationType: the type's unlock, which raises when the
      returned device is still unavailable. No other id is touched; a passing
      unlock leaves the device stored, and available and Offline whenever the
      unlock persists (every type but Appium, and Appium when stopping the
      session succeeds). */
  function UnlockByType(t: ReservationType, devices: seq<Device>, id: string, env: Env): (c: UnlockCall)
    ensures forall x :: x != id ==> FindDevice(c.devices, x) == FindDevice(devices, x)
    ensures c.outcome.Pass? ==> FindDevice(c.devices, id).Some?
    ensures c.outcome.Pass? && (t != Appium || env.stopSession(id)) ==>
      FindDevice(c.devices, id).value.available && FindDevice(c.devices, id).value.status == Offline
    ensures c.outcome.Pass? && t == Appium && !env.stopSession(id) ==> c.devices == devices
    ensures SameIds(devices, c.devices)
  {
    var c := match t
      case Appium => UnlockAppium(devices, id, env)
      case XcuiTest => UnlockPlain(devices, id)
      case Manual => UnlockPlain(devices, id);
    if c.result.Err? then UnlockCall(Fail(c.result.error), c.devices)
    else if !c.result.value.available then UnlockCall(Fail(UnlockFailed(id)), c.devices)
    else UnlockCall(Pass, c.devices)
  }

  // ---------------------------------------------------------------------
  // Properties of lock and unlock

  /** A failed lock leaves the device either untouched or, for Appium when the
      rollback persists, released: never held by no one. */
  lemma FailedLockLeavesDeviceFree(t: ReservationType, devices: seq<Device>, id: string, env: Env)
    requires LockByType(t, devices, id, env).result.Err?
    ensures var after := FindDevice(LockByType(t, devices, id, env).devices, id);
      || after == FindDevice(devices, id)
      || (t == Appium && env.stopSession(id) && after.Some? && after.value.available
          && after.value.status == Offline && after.value.appiumEndpoint == "")
  {
  }

  /** The plain unlock is idempotent: a second call returns and stores the
      same as the first. */
  lemma UnlockPlainIdempotent(devices: seq<Device>, id: string)
    ensures var once := UnlockPlain(devices, id);
      UnlockPlain(once.devices, id) == once
  {
    var once := UnlockPlain(devices, id);
    if once.result.Ok? {
      var u := once.result.value;
      assert ReplaceDevice(once.devices, u) == once.devices;
    }
  }

  /** The Appium unlock is idempotent too, whichever answer the session stop
      gives; when the stop succeeds the device ends available, Offline and
      without endpoint. */
  lemma UnlockAppiumIdempotent(devices: seq<Device>, id: string, env: Env)
    ensures var once := UnlockAppium(devices, id, env);
      && UnlockAppium(once.devices, id, env) == once
      && (once.result.Ok? && env.stopSession(id) ==>
            var d := FindDevice(once.devices, id).value;
            d.available && d.status == Offline && d.appiumEndpoint == "")
  {
    var once := UnlockAppium(devices, id, env);
    if once.result.Ok? && env.stopSession(id) {
      var u := once.result.value;
      assert ReplaceDevice(once.devices, u) == once.devices;
    }
  }

  /** The availability check of UnlockDeviceByReservationType never fires:
      unlocking raises exactly when the id is not stored. */
  lemma UnlockFailsOnlyForUnknownIds(t: ReservationType, devices: seq<Device>, id: string, env: Env)
    ensures UnlockByType(t, devices, id, env).outcome.Fail? <==> FindDevice(devices, id).None?
    ensures UnlockByType(t, devices, id, env).outcome.Fail? ==>
      UnlockByType(t, devices, id, env) == UnlockCall(Fail(KeyNotFound(id)), devices)
  {
  }

  lemma ReplaceKeepsConsistent(devices: seq<Device>, d: Device)
    requires AllConsistent(devices) && LockConsistent(d)
    ensures AllConsistent(ReplaceDevice(devices, d))
  {
  }

  /** Lock and unlock keep every stored device consistent. */
  lemma LockUnlockKeepConsistent(t: ReservationType, devices: seq<Device>, id: string, env: Env)
    requires AllConsistent(devices)
    ensures AllConsistent(LockByType(t, devices, id, env).devices)
    ensures AllConsistent(UnlockByType(t, devices, id, env).devices)
  {
    var f := FindDevice(devices, id);
    if f.Some? {
      var d := f.value;
      ReplaceKeepsConsistent(devices, d.(available := false, status := Locked));
      ReplaceKeepsConsistent(devices, d.(available := true, status := Offline));
      ReplaceKeepsConsistent(devices, d.(available := true, appiumEndpoint := "", status := Offline));
      if env.startSession(id).Some? {
        ReplaceKeepsConsistent(devices, d.(available := false, appiumEndpoint := env.startSession(id).value, status := Locked));
      }
    }
  }

  // ---------------------------------------------------------------------
  // Methods: the source's procedures over the store

  method SetDeviceAvailabilityToFalse(deviceId: string, client: Store) returns (r: Result<Device, Failure>)
    ensures r == match FindDevice(client.devices, deviceId)
                 case None => Err(KeyNotFound(deviceId))
                 case Some(d) => Ok(d.(available := false))
  {
    var device := client.GetDevice(deviceId);
    if device.None? {
      return Err(KeyNotFound(deviceId));
    }
    r := Ok(device.value.(available := false));
  }

  method SetDeviceAvailabilityToTrue(deviceId: string, client: Store) returns (r: Result<Device, Failure>)
    ensures r == match FindDevice(client.devices, deviceId)
                 case None => Err(KeyNotFound(deviceId))
                 case Some(d) => Ok(d.(available := true))
  {
    var device := client.GetDevice(deviceId);
    if device.None? {
      return Err(KeyNotFound(deviceId));
    }
    r := Ok(device.value.(available := true));
  }

  method SetDeviceStatusToLocked(client: Store, device: Device) returns (r: Device)
    modifies client
    ensures r == device.(status := Locked)
    ensures client.State() == old(client.State()).(devices := ReplaceDevice(old(client.devices), r))
  {
    r := client.UpdateDevice(device.(status := Locked));
  }

  method SetDeviceStatusToOffline(client: Store, device: Device) returns (r: Device)
    modifies client
    ensures r == device.(status := Offline)
    ensures client.State() == old(client.State()).(devices := ReplaceDevice(old(client.devices), r))
  {
    r := client.UpdateDevice(device.(status := Offline));
  }

  method LockDeviceAppium(deviceId: string, client: Store, env: Env) returns (r: Result<Device, Failure>)
    modifies client
    ensures DeviceCall(r, client.devices) == LockAppium(old(client.devices), deviceId, env)
    ensures client.queue == old(client.queue) && client.applied == old(client.applied)
  {
    var device := SetDeviceAvailabilityToFalse(deviceId, client);
    if device.Err? {
      return Err(device.error);
    }
    var d := device.value;
    var endpoint := env.startSession(deviceId);
    if endpoint.None? {
      var _ := UnlockDeviceAppium(d.id, client, env);
      return Err(SessionStartFailed(deviceId));
    }
    d := d.(appiumEndpoint := endpoint.value);
    var locked := SetDeviceStatusToLocked(client, d);
    r := Ok(locked);
  }

  method LockDeviceXcuiTest(deviceId: string, client: Store) returns (r: Result<Device, Failure>)
    modifies client
    ensures DeviceCall(r, client.devices) == LockPlain(old(client.devices), deviceId)
    ensures client.queue == old(client.queue) && client.applied == old(client.applied)
  {
    var device := SetDeviceAvailabilityToFalse(deviceId, client);
    if device.Err? {
      return Err(device.error);
    }
    var locked := SetDeviceStatusToLocked(client, device.value);
    r := Ok(locked);
  }

  method LockDeviceManual(deviceId: string, client: Store) returns (r: Result<Device, Failure>)
    modifies client
    ensures DeviceCall(r, client.devices) == LockPlain(old(client.devices), deviceId)
    ensures client.queue == old(client.queue) && client.applied == old(client.applied)
  {
    var device := SetDeviceAvailabilityToFalse(deviceId, client);
    if device.Err? {
      return Err(device.error);
    }
    var locked := SetDeviceStatusToLocked(client, device.value);
    r := Ok(locked);
  }

  method UnlockDeviceAppium(deviceId: string, client: Store, env: Env) returns (r: Result<Device, Failure>)
    modifies client
    ensures DeviceCall(r, client.devices) == UnlockAppium(old(client.devices), deviceId, env)
    ensures client.queue == old(client.queue) && client.applied == old(client.applied)
  {
    var device := SetDeviceAvailabilityToTrue(deviceId, client);
    if device.Err? {
      return Err(device.error);
    }
    if !env.stopSession(deviceId) {
      return Ok(device.value);
    }
    var d := device.value.(appiumEndpoint := "");
    var offline := SetDeviceStatusToOffline(client, d);
    r := Ok(offline);
  }

  method UnlockDeviceXcuiTest(deviceId: string, client: Store) returns (r: Result<Device, Failure>)
    modifies client
    ensures DeviceCall(r, client.devices) == UnlockPlain(old(client.devices), deviceId)
    ensures client.queue == old(client.queue) && client.applied == old(client.applied)
  {
    var device := SetDeviceAvailabilityToTrue(deviceId, client);
    if device.Err? {
      return Err(device.error);
    }
    var offline := SetDeviceStatusToOffline(client, device.value);
    r := Ok(offline);
  }

  method UnlockDeviceManual(deviceId: string, client: Store) returns (r: Result<Device, Failure>)
    modifies client
    ensures DeviceCall(r, client.devices) == UnlockPlain(old(client.devices), deviceId)
    ensures client.queue == old(client.queue) && client.applied == old(client.applied)
  {
    var device := SetDeviceAvailabilityToTrue(deviceId, client);
    if device.Err? {
      return Err(device.error);
    }
    var offline := SetDeviceStatusToOffline(client, device.value);
    r := Ok(offline);
  }

  method UnlockDeviceByReservationType(t: ReservationType, reservedDevice: ReservedDevice, client: Store, env: Env)
    returns (r: Outcome<Failure>)
    modifies client
    ensures UnlockCall(r, client.devices) == UnlockByType(t, old(client.devices), reservedDevice.deviceId, env)
    ensures client.queue == old(client.queue) && client.applied == old(client.applied)
  {
    var device: Result<Device, Failure>;
    match t {
      case Appium => device := UnlockDeviceAppium(reservedDevice.deviceId, client, env);
      case XcuiTest => device := UnlockDeviceXcuiTest(reservedDevice.deviceId, client);
      case Manual => device := UnlockDeviceManual(reservedDevice.deviceId, client);
    }
    if device.Err? {
      return Fail(device.error);
    }
    if !device.value.available {
      return Fail(UnlockFailed(reservedDevice.deviceId));
    }
    r := Pass;
  }

  // ---------------------------------------------------------------------
  // Health reconciler

  /** The transition of one device of the checked type, or None when its
      record is left alone. */
  function Reconcile(d: Device, reachable: bool): Option<Device> {
    if !reachable && d.status != Locked && d.status != LockedOffline then
      Some(d.(status := Offline, available := false))
    else if !reachable && d.status == Locked then
      Some(d.(status := LockedOffline))
    else if reachable && d.status == LockedOffline then
      Some(d.(status := Locked, available := false))
    else if reachable && d.status == Offline then
      Some(d.(status := Online, available := true))
    else None
  }

  /** The record a device has after reconciliation. */
  function Reconciled(d: Device, checkedDeviceIds: seq<string>, deviceType: DeviceType): Device {
    if d.deviceType == deviceType then Reconcile(d, d.id in checkedDeviceIds).GetOr(d) else d
  }

  /** Reconciliation makes the status agree with reachability (Offline or
      LockedOffline exactly for an unreachable device), keeps a locked device
      locked and an unlocked one unlocked, makes a device available only when
      it comes back from Offline, writes back exactly in the four transition
      cases, keeps the status/availability rule, changes nothing but status
      and availability, and a second pass with the same reachability changes
      nothing. */
  lemma ReconcileProperties(d: Device, reachable: bool)
    ensures var r := Reconcile(d, reachable).GetOr(d);
      && ((r.status == Offline || r.status == LockedOffline) <==> !reachable)
      && ((r.status == Locked || r.status == LockedOffline) <==> (d.status == Locked || d.status == LockedOffline))
      && (r.available && !d.available ==> reachable && d.status == Offline)
      && (Reconcile(d, reachable).None? <==>
            (reachable && d.status != Offline && d.status != LockedOffline) || (!reachable && d.status == LockedOffline))
      && r == d.(status := r.status, available := r.available)
      && (LockConsistent(d) ==> LockConsistent(r))
      && (LockConsistent(d) && !reachable ==> !r.available)
      && Reconcile(r, reachable).GetOr(r) == r
  {
  }

  /** The loop of CheckAllDevicesInDevicePoolAreOnline over a snapshot of the
      pool: devices of the checked type whose transition applies are written
      back one by one. */
  function HealthLoop(store: seq<Device>, pending: seq<Device>, checkedDeviceIds: seq<string>, deviceType: DeviceType): seq<Device>
    decreases |pending|
  {
    if pending == [] then store
    else HealthLoop(HealthStep(store, pending[0], checkedDeviceIds, deviceType), pending[1..], checkedDeviceIds, deviceType)
  }

  /** One iteration: the device's transition, if any, is written back. */
  function HealthStep(store: seq<Device>, d: Device, checkedDeviceIds: seq<string>, deviceType: DeviceType): seq<Device> {
    if d.deviceType == deviceType && Reconcile(d, d.id in checkedDeviceIds).Some? then
      ReplaceDevice(store, Reconcile(d, d.id in checkedDeviceIds).value)
    else store
  }

  lemma HealthStepAt(devices: seq<Device>, store: seq<Device>, k: nat, ids: seq<string>, t: DeviceType)
    requires UniqueIds(devices) && k < |devices| && |store| == |devices|
    requires forall i :: 0 <= i < |devices| ==> store[i].id == devices[i].id
    requires store[k] == devices[k]
    ensures var next := HealthStep(store, devices[k], ids, t);
      && |next| == |devices|
      && next[k] == Reconciled(devices[k], ids, t)
      && (forall i :: 0 <= i < |devices| && i != k ==> next[i] == store[i])
  {
    var next := HealthStep(store, devices[k], ids, t);
    forall i | 0 <= i < |devices| && i != k ensures next[i] == store[i] {
      assert devices[i].id != devices[k].id;
    }
  }

  lemma {:induction false} HealthLoopFrom(devices: seq<Device>, store: seq<Device>, k: nat, ids: seq<string>, t: DeviceType)
    requires UniqueIds(devices) && k <= |devices| && |store| == |devices|
    requires forall i :: 0 <= i < |devices| ==> store[i].id == devices[i].id
    requires forall i :: k <= i < |devices| ==> store[i] == devices[i]
    ensures var r := HealthLoop(store, devices[k..], ids, t);
      && |r| == |devices|
      && (forall i :: 0 <= i < k ==> r[i] == store[i])
      && (forall i :: k <= i < |devices| ==> r[i] == Reconciled(devices[i], ids, t))
    decreases |devices| - k
  {
    if k < |devices| {
      assert devices[k..][1..] == devices[k + 1..];
      var next := HealthStep(store, devices[k], ids, t);
      HealthStepAt(devices, store, k, ids, t);
      HealthLoopFrom(devices, next, k + 1, ids, t);
    }
  }

  /** With unique ids, the reconciler gives every device of the checked type
      its transition and leaves every other device as it was. */
  lemma HealthCheckPointwise(devices: seq<Device>, ids: seq<string>, t: DeviceType)
    requires UniqueIds(devices)
    ensures var r := HealthLoop(devices, devices, ids, t);
      |r| == |devices| && forall i :: 0 <= i < |devices| ==> r[i] == Reconciled(devices[i], ids, t)
  {
    assert devices[0..] == devices;
    HealthLoopFrom(devices, devices, 0, ids, t);
  }

  /** The reconciler keeps every stored device consistent. */
  lemma {:induction false} HealthLoopKeepsConsistent(store: seq<Device>, pending: seq<Device>, ids: seq<string>, t: DeviceType)
    requires AllConsistent(store) && AllConsistent(pending)
    ensures AllConsistent(HealthLoop(store, pending, ids, t))
    decreases |pending|
  {
    if pending != [] {
      var d := pending[0];
      ReconcileProperties(d, d.id in ids);
      assert AllConsistent(pending[1..]) by {
        forall i | 0 <= i < |pending[1..]| ensures LockConsistent(pending[1..][i]) {
          assert pending[1..][i] == pending[i + 1];
        }
      }
      if d.deviceType == t && Reconcile(d, d.id in ids).Some? {
        ReplaceKeepsConsistent(store, Reconcile(d, d.id in ids).value);
      }
      HealthLoopKeepsConsistent(HealthStep(store, d, ids, t), pending[1..], ids, t);
    }
  }

  method CheckAllDevicesInDevicePoolAreOnline(checkedDeviceIds: seq<string>, deviceType: DeviceType, client: Store)
    modifies client
    ensures client.devices == HealthLoop(old(client.devices), old(client.devices), checkedDeviceIds, deviceType)
    ensures client.queue == old(client.queue) && client.applied == old(client.applied)
  {
    var devicesInPool := client.GetDevices();
    for i := 0 to |devicesInPool|
      invariant HealthLoop(client.devices, devicesInPool[i..], checkedDeviceIds, deviceType)
             == HealthLoop(old(client.devices), old(client.devices), checkedDeviceIds, deviceType)
      invariant client.queue == old(client.queue) && client.applied == old(client.applied)
    {
      var device := devicesInPool[i];
      assert devicesInPool[i..][1..] == devicesInPool[i + 1..];
      if device.deviceType == deviceType {
        var reachable := device.id in checkedDeviceIds;
        if !reachable && device.status != Locked && device.status != LockedOffline {
          device := device.(status := Offline, available := false);
          var _ := client.UpdateDevice(device);
        } else if !reachable && device.status == Locked {
          device := device.(status := LockedOffline);
          var _ := client.UpdateDevice(device);
        } else if reachable && device.status == LockedOffline {
          device := device.(status := Locked, available := false);
          var _ := client.UpdateDevice(device);
        } else if reachable && device.status == Offline {
          device := device.(status := Online, available := true);
          var _ := client.UpdateDevice(device);
        }
      }
    }
  }
}
