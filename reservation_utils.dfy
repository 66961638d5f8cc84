/** ReservationUtils: the steps the reservation service takes for one queued
    reservation — the eligibility pre-check that holds matching devices,
    locking every requested device, creating the applied record and releasing
    the locked devices of a reservation that could not be completed. The
    reservation object and the list of reserved devices, which the source
    mutates in place, are passed in and handed back. */
module ReservationUtils {
  import opened Wrappers
  import opened Models
  import opened Store
  import opened Matcher
  import opened DeviceUtils

  // ---------------------------------------------------------------------
  // Eligibility pre-check

  /** The state of the pre-check loop: the device records, whether every
      request so far found an available device, and the devices it holds. */
  datatype Hold = Hold(devices: seq<Device>, eligible: bool, held: seq<Device>)

  /** The loop of IsReservationEligible: a request that matches no device or
      an unavailable one makes the reservation ineligible; an available match
      is held by persisting it as unavailable. */
  function HoldLoop(devices: seq<Device>, requests: seq<RequestedDevice>, shuffle: seq<Device> -> nat,
                    eligible: bool, held: seq<Device>): Hold
    decreases |requests|
  {
    if requests == [] then Hold(devices, eligible, held)
    else
      match MatchDevice(devices, requests[0], shuffle)
      case None => HoldLoop(devices, requests[1..], shuffle, false, held)
      case Some(d) =>
        if !d.available then HoldLoop(devices, requests[1..], shuffle, false, held)
        else
          var taken := d.(available := false);
          HoldLoop(ReplaceDevice(devices, taken), requests[1..], shuffle, eligible, held + [taken])
  }

  /** The release after an ineligible check: every held device is persisted
      as available again. */
  function ReleaseHolds(devices: seq<Device>, held: seq<Device>): seq<Device>
    decreases |held|
  {
    if held == [] then devices
    else ReleaseHolds(ReplaceDevice(devices, held[0].(available := true)), held[1..])
  }

  datatype Eligibility = Eligibility(eligible: bool, devices: seq<Device>)

  /** IsReservationEligible: the verdict and the device records afterwards;
      the holds of an eligible reservation stay in place. */
  function CheckEligibility(devices: seq<Device>, requests: seq<RequestedDevice>, shuffle: seq<Device> -> nat): Eligibility {
    var h := HoldLoop(devices, requests, shuffle, true, []);
    if h.eligible then Eligibility(true, h.devices) else Eligibility(false, ReleaseHolds(h.devices, h.held))
  }

  /** The last held device with that id: the one whose release wins. */
  function LastWithId(held: seq<Device>, id: string): (r: Option<Device>)
    ensures r.Some? ==> r.value in held && r.value.id == id
    ensures r.None? ==> forall j :: 0 <= j < |held| ==> held[j].id != id
    decreases |held|
  {
    if held == [] then None
    else
      match LastWithId(held[1..], id)
      case Some(h) => Some(h)
      case None => if held[0].id == id then Some(held[0]) else None
  }

  lemma {:induction false} LastWithIdAppend(held: seq<Device>, u: Device, id: string)
    ensures LastWithId(held + [u], id) == if u.id == id then Some(u) else LastWithId(held, id)
    decreases |held|
  {
    if held == [] {
      assert held + [u] == [u];
      assert [u][1..] == [];
    } else {
      assert (held + [u])[1..] == held[1..] + [u];
      LastWithIdAppend(held[1..], u, id);
    }
  }

  /** The record a device has after the release. */
  function Released(d: Device, held: seq<Device>): Device {
    match LastWithId(held, d.id)
    case None => d
    case Some(h) => h.(available := true)
  }

  lemma {:induction false} ReleaseHoldsPointwise(devices: seq<Device>, held: seq<Device>)
    ensures |ReleaseHolds(devices, held)| == |devices|
    ensures forall i :: 0 <= i < |devices| ==> ReleaseHolds(devices, held)[i] == Released(devices[i], held)
    decreases |held|
  {
    if held != [] {
      var next := ReplaceDevice(devices, held[0].(available := true));
      ReleaseHoldsPointwise(next, held[1..]);
      forall i | 0 <= i < |devices| ensures ReleaseHolds(devices, held)[i] == Released(devices[i], held) {
        assert next[i].id == devices[i].id;
      }
    }
  }

  /** The relation the pre-check keeps between the original records, the
      current ones and the held devices: a held device is the original, which
      was available, now marked unavailable; every other record is as it was. */
  predicate Holding(orig: seq<Device>, cur: seq<Device>, held: seq<Device>) {
    && |cur| == |orig|
    && (forall i :: 0 <= i < |orig| ==> cur[i].id == orig[i].id)
    && (forall i :: 0 <= i < |orig| ==>
          match LastWithId(held, orig[i].id)
          case None => cur[i] == orig[i]
          case Some(h) => h == cur[i] && orig[i].available && cur[i] == orig[i].(available := false))
  }

  lemma HoldStep(orig: seq<Device>, cur: seq<Device>, held: seq<Device>, d: Device)
    requires UniqueIds(orig) && Holding(orig, cur, held) && d in cur && d.available
    ensures Holding(orig, ReplaceDevice(cur, d.(available := false)), held + [d.(available := false)])
  {
    var taken := d.(available := false);
    var next := ReplaceDevice(cur, taken);
    var k :| 0 <= k < |cur| && cur[k] == d;
    forall i | 0 <= i < |orig|
      ensures match LastWithId(held + [taken], orig[i].id)
              case None => next[i] == orig[i]
              case Some(h) => h == next[i] && orig[i].available && next[i] == orig[i].(available := false)
    {
      LastWithIdAppend(held, taken, orig[i].id);
      if i == k {
        assert cur[k].available;
      } else {
        assert orig[i].id != orig[k].id;
      }
    }
  }

  lemma {:induction false} HoldLoopKeepsHolding(orig: seq<Device>, cur: seq<Device>, requests: seq<RequestedDevice>,
                                                shuffle: seq<Device> -> nat, eligible: bool, held: seq<Device>)
    requires UniqueIds(orig) && Holding(orig, cur, held)
    ensures var h := HoldLoop(cur, requests, shuffle, eligible, held); Holding(orig, h.devices, h.held)
    decreases |requests|
  {
    if requests != [] {
      match MatchDevice(cur, requests[0], shuffle)
      case None =>
        HoldLoopKeepsHolding(orig, cur, requests[1..], shuffle, false, held);
      case Some(d) =>
        if !d.available {
          HoldLoopKeepsHolding(orig, cur, requests[1..], shuffle, false, held);
        } else {
          var taken := d.(available := false);
          HoldStep(orig, cur, held, d);
          HoldLoopKeepsHolding(orig, ReplaceDevice(cur, taken), requests[1..], shuffle, eligible, held + [taken]);
        }
    }
  }

  /** With unique ids, the pre-check only ever takes available devices and
      changes nothing but their availability; an ineligible reservation leaves
      the device records exactly as it found them. */
  lemma EligibilityCheckEffect(devices: seq<Device>, requests: seq<RequestedDevice>, shuffle: seq<Device> -> nat)
    requires UniqueIds(devices)
    ensures var c := CheckEligibility(devices, requests, shuffle);
      && |c.devices| == |devices|
      && (forall i :: 0 <= i < |devices| ==>
            c.devices[i] == devices[i] || (devices[i].available && c.devices[i] == devices[i].(available := false)))
      && (!c.eligible ==> c.devices == devices)
  {
    HoldLoopKeepsHolding(devices, devices, requests, shuffle, true, []);
    var h := HoldLoop(devices, requests, shuffle, true, []);
    if !h.eligible {
      ReleaseHoldsPointwise(h.devices, h.held);
      var r := ReleaseHolds(h.devices, h.held);
      forall i | 0 <= i < |devices| ensures r[i] == devices[i] {
        assert h.devices[i].id == devices[i].id;
      }
    }
  }

  method IsReservationEligible(reservation: Reservation, client: Store, env: Env) returns (eligible: bool)
    requires reservation.requestedDevices.Some?
    modifies client
    ensures var c := CheckEligibility(old(client.devices), reservation.requestedDevices.value, env.shuffle);
      eligible == c.eligible && client.devices == c.devices
    ensures client.queue == old(client.queue) && client.applied == old(client.applied)
  {
    eligible := true;
    var requests := reservation.requestedDevices.value;
    var lockedDevices: seq<Device> := [];
    for i := 0 to |requests|
      invariant HoldLoop(client.devices, requests[i..], env.shuffle, eligible, lockedDevices)
             == HoldLoop(old(client.devices), requests, env.shuffle, true, [])
      invariant client.queue == old(client.queue) && client.applied == old(client.applied)
    {
      assert requests[i..][1..] == requests[i + 1..];
      var device := FindMatchingDevice(requests[i], client, env);
      if device.None? {
        eligible := false;
        continue;
      }
      if !device.value.available {
        eligible := false;
      } else {
        var updated := client.UpdateDevice(device.value.(available := false));
        lockedDevices := lockedDevices + [updated];
      }
    }
    assert requests[|requests|..] == [];
    if !eligible {
      ghost var held := client.devices;
      for j := 0 to |lockedDevices|
        invariant ReleaseHolds(client.devices, lockedDevices[j..]) == ReleaseHolds(held, lockedDevices)
        invariant client.queue == old(client.queue) && client.applied == old(client.applied)
      {
        assert lockedDevices[j..][1..] == lockedDevices[j + 1..];
        var _ := client.UpdateDevice(lockedDevices[j].(available := true));
      }
      assert lockedDevices[|lockedDevices|..] == [];
    }
  }

  // ---------------------------------------------------------------------
  // Locking the requested devices

  /** IsDeviceAvailable reads the device again from the store. */
  predicate StoredAvailable(devices: seq<Device>, d: Device) {
    FindDevice(devices, d.id).Some? && FindDevice(devices, d.id).value.available
  }

  method IsDeviceAvailable(device: Device, client: Store) returns (available: bool)
    requires FindDevice(client.devices, device.id).Some?
    ensures available <==> StoredAvailable(client.devices, device)
  {
    var dev := client.GetDevice(device.id);
    available := dev.value.available;
  }

  /** The records, the reservation and the reserved devices while a
      reservation's devices are locked. */
  datatype Reserving = Reserving(world: World, reservation: Reservation, reserved: seq<ReservedDevice>)

  /** The effect of one lock attempt: a locked (unavailable) device is
      recorded as reserved; a lock that raises increments the reservation's
      failure counter and writes the reservation back to the queue. */
  function AfterLock(s: Reserving, c: DeviceCall): (r: Reserving)
    ensures r.world.applied == s.world.applied
    ensures c.result.Err? ==>
      && r.reservation == s.reservation.(failedToApply := s.reservation.failedToApply + 1)
      && r.world.queue == ReplaceReservation(s.world.queue, r.reservation)
      && r.reserved == s.reserved
    ensures c.result.Ok? ==> r.reservation == s.reservation && r.world.queue == s.world.queue
  {
    match c.result
    case Ok(u) =>
      Reserving(s.world.(devices := c.devices), s.reservation,
                if !u.available then s.reserved + [Snapshot(u)] else s.reserved)
    case Err(_) =>
      var failed := s.reservation.(failedToApply := s.reservation.failedToApply + 1);
      Reserving(s.world.(devices := c.devices, queue := ReplaceReservation(s.world.queue, failed)), failed, s.reserved)
  }

  /** One request of ReserveAllRequestedDevices. */
  function ReserveStep(s: Reserving, req: RequestedDevice, env: Env): Reserving {
    match MatchDevice(s.world.devices, req, env.shuffle)
    case None => s
    case Some(d) =>
      if StoredAvailable(s.world.devices, d)
      then AfterLock(s, LockByType(s.reservation.reservationType, s.world.devices, d.id, env))
      else s
  }

  function ReserveLoop(s: Reserving, requests: seq<RequestedDevice>, env: Env): Reserving
    decreases |requests|
  {
    if requests == [] then s else ReserveLoop(ReserveStep(s, requests[0], env), requests[1..], env)
  }

  /** Every reserved device is stored Locked and unavailable, and no device is
      reserved twice. */
  predicate HeldLocked(devices: seq<Device>, reserved: seq<ReservedDevice>) {
    && (forall j :: 0 <= j < |reserved| ==>
          FindDevice(devices, reserved[j].deviceId).Some?
          && !FindDevice(devices, reserved[j].deviceId).value.available
          && FindDevice(devices, reserved[j].deviceId).value.status == Locked)
    && (forall j, k :: 0 <= j < k < |reserved| ==> reserved[j].deviceId != reserved[k].deviceId)
  }

  lemma ReserveStepKeepsHeldLocked(s: Reserving, req: RequestedDevice, env: Env)
    requires HeldLocked(s.world.devices, s.reserved)
    ensures var r := ReserveStep(s, req, env); HeldLocked(r.world.devices, r.reserved)
  {
    var m := MatchDevice(s.world.devices, req, env.shuffle);
    if m.Some? && StoredAvailable(s.world.devices, m.value) {
      var id := m.value.id;
      var c := LockByType(s.reservation.reservationType, s.world.devices, id, env);
      assert ReserveStep(s, req, env) == AfterLock(s, c);
      forall j | 0 <= j < |s.reserved|
        ensures s.reserved[j].deviceId != id
        ensures FindDevice(c.devices, s.reserved[j].deviceId) == FindDevice(s.world.devices, s.reserved[j].deviceId)
      {
      }
      var r := AfterLock(s, c);
      assert r.world.devices == c.devices;
      if c.result.Ok? && !c.result.value.available {
        var u := c.result.value;
        assert r.reserved == s.reserved + [Snapshot(u)];
        assert Snapshot(u).deviceId == id;
        forall j | 0 <= j < |r.reserved|
          ensures FindDevice(r.world.devices, r.reserved[j].deviceId).Some?
          ensures !FindDevice(r.world.devices, r.reserved[j].deviceId).value.available
          ensures FindDevice(r.world.devices, r.reserved[j].deviceId).value.status == Locked
        {
          if j < |s.reserved| {
            assert r.reserved[j] == s.reserved[j];
          } else {
            assert r.reserved[j] == Snapshot(u);
          }
        }
        forall j, k | 0 <= j < k < |r.reserved| ensures r.reserved[j].deviceId != r.reserved[k].deviceId {
          if k == |s.reserved| {
            assert r.reserved[k] == Snapshot(u) && r.reserved[j] == s.reserved[j];
          } else {
            assert r.reserved[k] == s.reserved[k] && r.reserved[j] == s.reserved[j];
          }
        }
      } else {
        assert r.reserved == s.reserved;
        forall j | 0 <= j < |r.reserved|
          ensures FindDevice(r.world.devices, r.reserved[j].deviceId) == FindDevice(s.world.devices, s.reserved[j].deviceId)
        {
        }
      }
    }
  }

  /** Over the whole loop: reserved devices are locked and distinct, the
      reserved list grows by at most one entry per request and keeps what it
      had, and the reservation changes only in its failure counter, which
      never decreases; the applied records are not touched. */
  lemma {:induction false} ReserveLoopProperties(s: Reserving, requests: seq<RequestedDevice>, env: Env)
    ensures var r := ReserveLoop(s, requests, env);
      && (HeldLocked(s.world.devices, s.reserved) ==> HeldLocked(r.world.devices, r.reserved))
      && |s.reserved| <= |r.reserved| <= |s.reserved| + |requests|
      && r.reserved[..|s.reserved|] == s.reserved
      && r.reservation == s.reservation.(failedToApply := r.reservation.failedToApply)
      && r.reservation.failedToApply >= s.reservation.failedToApply
      && r.world.applied == s.world.applied
    decreases |requests|
  {
    if requests != [] {
      var next := ReserveStep(s, requests[0], env);
      if HeldLocked(s.world.devices, s.reserved) {
        ReserveStepKeepsHeldLocked(s, requests[0], env);
      }
      ReserveLoopProperties(next, requests[1..], env);
      var r := ReserveLoop(next, requests[1..], env);
      assert r.reserved[..|next.reserved|][..|s.reserved|] == r.reserved[..|s.reserved|];
    }
  }

  method LockDeviceWithAppiumEndpoint(reservation: Reservation, reservedDevices: seq<ReservedDevice>, device: Device,
                                      client: Store, env: Env)
    returns (reservationAfter: Reservation, reservedAfter: seq<ReservedDevice>)
    modifies client
    ensures Reserving(client.State(), reservationAfter, reservedAfter)
         == AfterLock(Reserving(old(client.State()), reservation, reservedDevices), LockAppium(old(client.devices), device.id, env))
  {
    reservationAfter, reservedAfter := reservation, reservedDevices;
    var updatedDevice := LockDeviceAppium(device.id, client, env);
    if updatedDevice.Ok? {
      if !updatedDevice.value.available {
        reservedAfter := reservedAfter + [Snapshot(updatedDevice.value)];
      }
    } else {
      reservationAfter := reservationAfter.(failedToApply := reservationAfter.failedToApply + 1);
      client.UpdateReservation(reservationAfter);
    }
  }

  method LockDeviceWithXcuiTest(reservation: Reservation, reservedDevices: seq<ReservedDevice>, device: Device, client: Store)
    returns (reservationAfter: Reservation, reservedAfter: seq<ReservedDevice>)
    modifies client
    ensures Reserving(client.State(), reservationAfter, reservedAfter)
         == AfterLock(Reserving(old(client.State()), reservation, reservedDevices), LockPlain(old(client.devices), device.id))
  {
    reservationAfter, reservedAfter := reservation, reservedDevices;
    var updatedDevice := LockDeviceXcuiTest(device.id, client);
    if updatedDevice.Ok? {
      if !updatedDevice.value.available {
        reservedAfter := reservedAfter + [Snapshot(updatedDevice.value)];
      }
    } else {
      reservationAfter := reservationAfter.(failedToApply := reservationAfter.failedToApply + 1);
      client.UpdateReservation(reservationAfter);
    }
  }

  method LockDeviceWithManual(reservation: Reservation, reservedDevices: seq<ReservedDevice>, device: Device, client: Store)
    returns (reservationAfter: Reservation, reservedAfter: seq<ReservedDevice>)
    modifies client
    ensures Reserving(client.State(), reservationAfter, reservedAfter)
         == AfterLock(Reserving(old(client.State()), reservation, reservedDevices), LockPlain(old(client.devices), device.id))
  {
    reservationAfter, reservedAfter := reservation, reservedDevices;
    var updatedDevice := LockDeviceManual(device.id, client);
    if updatedDevice.Ok? {
      if !updatedDevice.value.available {
        reservedAfter := reservedAfter + [Snapshot(updatedDevice.value)];
      }
    } else {
      reservationAfter := reservationAfter.(failedToApply := reservationAfter.failedToApply + 1);
      client.UpdateReservation(reservationAfter);
    }
  }

  method LockDeviceByReservationType(reservation: Reservation, reservedDevices: seq<ReservedDevice>, device: Device,
                                     client: Store, env: Env)
    returns (reservationAfter: Reservation, reservedAfter: seq<ReservedDevice>)
    modifies client
    ensures Reserving(client.State(), reservationAfter, reservedAfter)
         == AfterLock(Reserving(old(client.State()), reservation, reservedDevices),
                      LockByType(reservation.reservationType, old(client.devices), device.id, env))
  {
    match reservation.reservationType {
      case Appium =>
        reservationAfter, reservedAfter := LockDeviceWithAppiumEndpoint(reservation, reservedDevices, device, client, env);
      case XcuiTest =>
        reservationAfter, reservedAfter := LockDeviceWithXcuiTest(reservation, reservedDevices, device, client);
      case Manual =>
        reservationAfter, reservedAfter := LockDeviceWithManual(reservation, reservedDevices, device, client);
    }
  }

  method ReserveAllRequestedDevices(reservation: Reservation, reservedDevices: seq<ReservedDevice>, client: Store, env: Env)
    returns (reservationAfter: Reservation, reservedAfter: seq<ReservedDevice>)
    requires reservation.requestedDevices.Some?
    modifies client
    ensures Reserving(client.State(), reservationAfter, reservedAfter)
         == ReserveLoop(Reserving(old(client.State()), reservation, reservedDevices), reservation.requestedDevices.value, env)
  {
    reservationAfter, reservedAfter := reservation, reservedDevices;
    var requests := reservation.requestedDevices.value;
    for i := 0 to |requests|
      invariant ReserveLoop(Reserving(client.State(), reservationAfter, reservedAfter), requests[i..], env)
             == ReserveLoop(Reserving(old(client.State()), reservation, reservedDevices), requests, env)
    {
      assert requests[i..][1..] == requests[i + 1..];
      var device := FindMatchingDevice(requests[i], client, env);
      if device.None? {
        continue;
      }
      var available := IsDeviceAvailable(device.value, client);
      if available {
        reservationAfter, reservedAfter := LockDeviceByReservationType(reservationAfter, reservedAfter, device.value, client, env);
      }
    }
    assert requests[|requests|..] == [];
  }

  // ---------------------------------------------------------------------
  // Completing or abandoning a reservation

  /** The applied record built from a reservation and its reserved devices. */
  function AppliedFor(reservation: Reservation, reservedDevices: seq<ReservedDevice>): (ra: ReservationApplied)
    ensures ra.id == reservation.id && ra.reservedDevices == reservedDevices
    ensures ra.dateCreated == reservation.dateCreated && ra.reservationType == reservation.reservationType
  {
    ReservationApplied(reservation.id, reservedDevices, reservation.dateCreated, reservation.reservationType)
  }

  /** AddAppliedReservation: the applied record keeps the reservation's id,
      creation time and type; when the REST call succeeds it is stored and
      appended to the caller's list, otherwise nothing changes. */
  method AddAppliedReservation(appliedReservations: seq<ReservationApplied>, reservation: Reservation,
                               reservedDevices: seq<ReservedDevice>, client: Store, env: Env)
    returns (r: Result<seq<ReservationApplied>, Failure>)
    modifies client
    ensures var ra := AppliedFor(reservation, reservedDevices);
      if env.applyRaises(ra) then r == Err(ApplyFailed(reservation.id)) && client.State() == old(client.State())
      else r == Ok(appliedReservations + [ra]) && client.State() == old(client.State()).(applied := old(client.applied) + [ra])
  {
    var reservationToBeApplied := AppliedFor(reservation, reservedDevices);
    var appliedReservation := client.ApplyReservation(reservationToBeApplied, env);
    if appliedReservation.Err? {
      return Err(appliedReservation.error);
    }
    r := Ok(appliedReservations + [appliedReservation.value]);
  }

  /** UnlockAllReservedDevicesForFailedReservation: the reserved devices are
      unlocked in order; the first unlock that raises ends the release. */
  function UnlockAll(t: ReservationType, devices: seq<Device>, reserved: seq<ReservedDevice>, env: Env): UnlockCall
    decreases |reserved|
  {
    if reserved == [] then UnlockCall(Pass, devices)
    else
      var c := UnlockByType(t, devices, reserved[0].deviceId, env);
      if c.outcome.Fail? then c else UnlockAll(t, c.devices, reserved[1..], env)
  }

  /** Releasing reserved devices that are all stored always passes. */
  lemma {:induction false} UnlockAllPasses(t: ReservationType, devices: seq<Device>, reserved: seq<ReservedDevice>, env: Env)
    requires forall j :: 0 <= j < |reserved| ==> FindDevice(devices, reserved[j].deviceId).Some?
    ensures UnlockAll(t, devices, reserved, env).outcome == Pass
    decreases |reserved|
  {
    if reserved != [] {
      var c := UnlockByType(t, devices, reserved[0].deviceId, env);
      UnlockFailsOnlyForUnknownIds(t, devices, reserved[0].deviceId, env);
      forall j | 0 <= j < |reserved[1..]| ensures FindDevice(c.devices, reserved[1..][j].deviceId).Some? {
        assert reserved[1..][j] == reserved[j + 1];
      }
      UnlockAllPasses(t, c.devices, reserved[1..], env);
    }
  }

  /** Releasing never makes an available device unavailable. */
  lemma {:induction false} UnlockAllKeepsAvailable(t: ReservationType, devices: seq<Device>, reserved: seq<ReservedDevice>,
                                                   env: Env, x: string)
    requires FindDevice(devices, x).Some? && FindDevice(devices, x).value.available
    ensures var c := UnlockAll(t, devices, reserved, env);
      FindDevice(c.devices, x).Some? && FindDevice(c.devices, x).value.available
    decreases |reserved|
  {
    if reserved != [] {
      var c := UnlockByType(t, devices, reserved[0].deviceId, env);
      UnlockFailsOnlyForUnknownIds(t, devices, reserved[0].deviceId, env);
      if c.outcome.Pass? {
        UnlockAllKeepsAvailable(t, c.devices, reserved[1..], env, x);
      }
    }
  }

  /** Releasing reserved devices that are all stored leaves every one of them
      available — except Appium devices whose session stop reports false,
      which stay as they were. */
  lemma {:induction false} UnlockAllReleases(t: ReservationType, devices: seq<Device>, reserved: seq<ReservedDevice>, env: Env)
    requires forall j :: 0 <= j < |reserved| ==> FindDevice(devices, reserved[j].deviceId).Some?
    ensures var c := UnlockAll(t, devices, reserved, env);
      forall j :: 0 <= j < |reserved| && (t != Appium || env.stopSession(reserved[j].deviceId)) ==>
        FindDevice(c.devices, reserved[j].deviceId).Some? && FindDevice(c.devices, reserved[j].deviceId).value.available
    decreases |reserved|
  {
    if reserved != [] {
      var id := reserved[0].deviceId;
      var c := UnlockByType(t, devices, id, env);
      UnlockFailsOnlyForUnknownIds(t, devices, id, env);
      forall j | 0 <= j < |reserved[1..]| ensures FindDevice(c.devices, reserved[1..][j].deviceId).Some? {
        assert reserved[1..][j] == reserved[j + 1];
      }
      UnlockAllReleases(t, c.devices, reserved[1..], env);
      var r := UnlockAll(t, c.devices, reserved[1..], env);
      if t != Appium || env.stopSession(id) {
        UnlockAllKeepsAvailable(t, c.devices, reserved[1..], env, id);
      }
      forall j | 0 <= j < |reserved| && (t != Appium || env.stopSession(reserved[j].deviceId))
        ensures FindDevice(r.devices, reserved[j].deviceId).Some? && FindDevice(r.devices, reserved[j].deviceId).value.available
      {
        if j > 0 {
          assert reserved[1..][j - 1] == reserved[j];
        }
      }
    }
  }

  method UnlockAllReservedDevicesForFailedReservation(reservation: Reservation, reservedDevices: seq<ReservedDevice>,
                                                      client: Store, env: Env)
    returns (r: Outcome<Failure>)
    modifies client
    ensures UnlockCall(r, client.devices) == UnlockAll(reservation.reservationType, old(client.devices), reservedDevices, env)
    ensures client.queue == old(client.queue) && client.applied == old(client.applied)
  {
    for i := 0 to |reservedDevices|
      invariant UnlockAll(reservation.reservationType, client.devices, reservedDevices[i..], env)
             == UnlockAll(reservation.reservationType, old(client.devices), reservedDevices, env)
      invariant client.queue == old(client.queue) && client.applied == old(client.applied)
    {
      assert reservedDevices[i..][1..] == reservedDevices[i + 1..];
      var unlocked := UnlockDeviceByReservationType(reservation.reservationType, reservedDevices[i], client, env);
      if unlocked.Fail? {
        return unlocked;
      }
    }
    assert reservedDevices[|reservedDevices|..] == [];
    r := Pass;
  }
}
