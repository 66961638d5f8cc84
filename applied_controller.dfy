/** ReservationsAppliedController: creating an applied reservation record and
    the release protocol that unlocks every reserved device before the record
    is deleted. */
module AppliedController {
  import opened Wrappers
  import opened Models
  import opened Store
  import opened DeviceUtils
  import opened ReservationUtils
  import opened Http

  /** Create: a missing body or an empty reserved-device list (a null list
      reads as empty) is rejected before anything is stored; otherwise the
      record is added. */
  method Create(body: Option<ReservationApplied>, client: Store) returns (r: Response<ReservationApplied>)
    modifies client
    ensures body.None? ==> r == ClientError(400, "Reservation is empty.") && client.State() == old(client.State())
    ensures body.Some? && body.value.reservedDevices == [] ==>
      r == ClientError(400, "RequestedDevices property is empty.") && client.State() == old(client.State())
    ensures body.Some? && body.value.reservedDevices != [] ==>
      r == Created(body.value) && client.State() == old(client.State()).(applied := old(client.applied) + [body.value])
  {
    if body.None? {
      return ClientError(400, "Reservation is empty.");
    }
    var reservation := body.value;
    if reservation.reservedDevices == [] {
      return ClientError(400, "RequestedDevices property is empty.");
    }
    client.AddApplied(reservation);
    r := Created(reservation);
  }

  /** The response to a release that failed at a device. */
  function UnlockFailedMessage(deviceId: string): string {
    "Failed to unlock device id: " + deviceId + " from reservation."
  }

  /** A release fails only at a reserved device that is no longer stored, and
      the failure names that device. */
  lemma {:induction false} UnlockAllFailsOnMissing(t: ReservationType, devices: seq<Device>, reserved: seq<ReservedDevice>, env: Env)
    ensures var c := UnlockAll(t, devices, reserved, env);
      c.outcome.Fail? ==>
        exists k :: 0 <= k < |reserved| && c.outcome.error == KeyNotFound(reserved[k].deviceId)
                    && FindDevice(devices, reserved[k].deviceId).None?
    decreases |reserved|
  {
    if reserved != [] {
      var id := reserved[0].deviceId;
      var c := UnlockByType(t, devices, id, env);
      UnlockFailsOnlyForUnknownIds(t, devices, id, env);
      assert UnlockAll(t, devices, reserved, env) == if c.outcome.Fail? then c else UnlockAll(t, c.devices, reserved[1..], env);
      if c.outcome.Fail? {
        assert c.outcome.error == KeyNotFound(reserved[0].deviceId) && FindDevice(devices, reserved[0].deviceId).None?;
      } else {
        UnlockAllFailsOnMissing(t, c.devices, reserved[1..], env);
        var r := UnlockAll(t, c.devices, reserved[1..], env);
        if r.outcome.Fail? {
          var k :| 0 <= k < |reserved[1..]| && r.outcome.error == KeyNotFound(reserved[1..][k].deviceId)
            && FindDevice(c.devices, reserved[1..][k].deviceId).None?;
          var x := reserved[k + 1].deviceId;
          assert reserved[1..][k] == reserved[k + 1];
          assert FindDevice(c.devices, id).Some?;
          assert x != id;
          assert FindDevice(devices, x).None?;
        }
      }
    }
  }

  /** An Appium release whose session stops all report false passes and
      changes no device: the record is deleted while its devices stay as
      they were, Locked included. */
  lemma {:induction false} AppiumReleaseWithoutStopChangesNothing(devices: seq<Device>, reserved: seq<ReservedDevice>, env: Env)
    requires forall j :: 0 <= j < |reserved| ==>
      FindDevice(devices, reserved[j].deviceId).Some? && !env.stopSession(reserved[j].deviceId)
    ensures UnlockAll(Appium, devices, reserved, env) == UnlockCall(Pass, devices)
    decreases |reserved|
  {
    if reserved != [] {
      UnlockFailsOnlyForUnknownIds(Appium, devices, reserved[0].deviceId, env);
      assert forall j :: 0 <= j < |reserved[1..]| ==> reserved[1..][j] == reserved[j + 1];
      AppiumReleaseWithoutStopChangesNothing(devices, reserved[1..], env);
    }
  }

  /** DeleteAsync: an unknown id is 404 and nothing is unlocked. Otherwise the
      reserved devices are unlocked in order with the record's type; the first
      failure returns 500 naming that device and keeps the record; the record
      is removed only after every unlock passed. */
  method DeleteAsync(id: string, client: Store, env: Env) returns (r: Response<ReservationApplied>)
    modifies client
    ensures FindApplied(old(client.applied), id).None? ==>
      r == ClientError(404, "Reservation not found in database.") && client.State() == old(client.State())
    ensures FindApplied(old(client.applied), id).Some? ==>
      var ra := FindApplied(old(client.applied), id).value;
      var u := UnlockAll(ra.reservationType, old(client.devices), ra.reservedDevices, env);
      && client.devices == u.devices && client.queue == old(client.queue)
      && (u.outcome.Fail? ==>
            && u.outcome.error.KeyNotFound?
            && r == ServerError(UnlockFailedMessage(u.outcome.error.id))
            && client.applied == old(client.applied))
      && (u.outcome.Pass? ==> r == SuccessEmpty && client.applied == RemoveApplied(old(client.applied), id))
  {
    var reservationFromApplied := client.GetApplied(id);
    if reservationFromApplied.None? {
      return ClientError(404, "Reservation not found in database.");
    }
    var ra := reservationFromApplied.value;
    for i := 0 to |ra.reservedDevices|
      invariant UnlockAll(ra.reservationType, client.devices, ra.reservedDevices[i..], env)
             == UnlockAll(ra.reservationType, old(client.devices), ra.reservedDevices, env)
      invariant client.queue == old(client.queue) && client.applied == old(client.applied)
    {
      var reservedDevice := ra.reservedDevices[i];
      assert ra.reservedDevices[i..][1..] == ra.reservedDevices[i + 1..];
      UnlockFailsOnlyForUnknownIds(ra.reservationType, client.devices, reservedDevice.deviceId, env);
      var unlocked := UnlockDeviceByReservationType(ra.reservationType, reservedDevice, client, env);
      if unlocked.Fail? {
        return ServerError(UnlockFailedMessage(reservedDevice.deviceId));
      }
    }
    assert ra.reservedDevices[|ra.reservedDevices|..] == [];
    client.DeleteApplied(id);
    r := SuccessEmpty;
  }
}
