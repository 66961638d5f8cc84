/** ReservationService: one sweep over the reservation queue. Each queued
    reservation is checked (a null request list aborts the sweep), put through
    the eligibility pre-check when it requests more than one device, has its
    devices locked, and is either turned into an applied reservation and
    removed from the queue or has its locked devices released. The sweep
    reports whether it created any applied reservation. */
module ReservationService {
  import opened Wrappers
  import opened Models
  import opened Store
  import opened Matcher
  import opened DeviceUtils
  import opened ReservationUtils

  /** The state of a sweep: the records, the local list of applied
      reservations, and the failure that ended the sweep, if any. */
  datatype Sweep = Sweep(world: World, appliedList: seq<ReservationApplied>, error: Option<Failure>)

  /** The release of the devices locked for a reservation that is not applied;
      a failing unlock ends the sweep. */
  function Release(rs: Reserving, list: seq<ReservationApplied>, env: Env): Sweep {
    var u := UnlockAll(rs.reservation.reservationType, rs.world.devices, rs.reserved, env);
    Sweep(rs.world.(devices := u.devices), list, if u.outcome.Fail? then Some(u.outcome.error) else None)
  }

  /** One iteration of ApplyAvailableReservations. The local applied list is
      appended to and then extended with itself, as the source does. */
  function ProcessReservation(w: World, list: seq<ReservationApplied>, reservation: Reservation, env: Env): Sweep {
    match reservation.requestedDevices
    case None => Sweep(w, list, Some(NullRequestedDevices(reservation.id)))
    case Some(requests) =>
      var e := if |requests| > 1 then CheckEligibility(w.devices, requests, env.shuffle) else Eligibility(true, w.devices);
      var w1 := w.(devices := e.devices);
      if !e.eligible then Sweep(w1, list, None)
      else
        var rs := ReserveLoop(Reserving(w1, reservation, []), requests, env);
        if |rs.reserved| == |requests| then
          var ra := AppliedFor(rs.reservation, rs.reserved);
          if env.applyRaises(ra) then Release(rs, list, env)
          else
            var added := list + [ra];
            Sweep(rs.world.(applied := rs.world.applied + [ra], queue := RemoveReservation(rs.world.queue, rs.reservation.id)),
                  added + added, None)
        else if |rs.reserved| > 0 then Release(rs, list, env)
        else Sweep(rs.world, list, None)
  }

  /** The loop over the queue as it was read at the start of the sweep; the
      first failure ends it. */
  function SweepLoop(s: Sweep, pending: seq<Reservation>, env: Env): Sweep
    decreases |pending|
  {
    if pending == [] || s.error.Some? then s
    else SweepLoop(ProcessReservation(s.world, s.appliedList, pending[0], env), pending[1..], env)
  }

  /** ApplyAvailableReservations from a given state of the records. */
  function ApplyAvailable(w: World, env: Env): Sweep {
    SweepLoop(Sweep(w, [], None), w.queue, env)
  }

  // ---------------------------------------------------------------------
  // Store invariants through a sweep

  predicate StoreInvariant(devices: seq<Device>) {
    UniqueIds(devices) && AllConsistent(devices)
  }

  lemma EligibilityKeepsInvariant(devices: seq<Device>, requests: seq<RequestedDevice>, shuffle: seq<Device> -> nat)
    requires StoreInvariant(devices)
    ensures StoreInvariant(CheckEligibility(devices, requests, shuffle).devices)
    ensures SameIds(devices, CheckEligibility(devices, requests, shuffle).devices)
  {
    EligibilityCheckEffect(devices, requests, shuffle);
  }

  lemma {:induction false} ReserveLoopKeepsInvariant(s: Reserving, requests: seq<RequestedDevice>, env: Env)
    requires StoreInvariant(s.world.devices)
    ensures StoreInvariant(ReserveLoop(s, requests, env).world.devices)
    decreases |requests|
  {
    if requests != [] {
      var next := ReserveStep(s, requests[0], env);
      var m := MatchDevice(s.world.devices, requests[0], env.shuffle);
      if m.Some? {
        LockUnlockKeepConsistent(s.reservation.reservationType, s.world.devices, m.value.id, env);
      }
      ReserveLoopKeepsInvariant(next, requests[1..], env);
    }
  }

  lemma {:induction false} UnlockAllKeepsInvariant(t: ReservationType, devices: seq<Device>, reserved: seq<ReservedDevice>, env: Env)
    requires StoreInvariant(devices)
    ensures StoreInvariant(UnlockAll(t, devices, reserved, env).devices)
    decreases |reserved|
  {
    if reserved != [] {
      var c := UnlockByType(t, devices, reserved[0].deviceId, env);
      LockUnlockKeepConsistent(t, devices, reserved[0].deviceId, env);
      UnlockAllKeepsInvariant(t, c.devices, reserved[1..], env);
    }
  }

  /** Releasing the locked devices of an unapplied reservation keeps the
      store invariant and never fails. */
  lemma ReleaseKeepsInvariant(rs: Reserving, applied: seq<ReservationApplied>, env: Env)
    requires StoreInvariant(rs.world.devices) && HeldLocked(rs.world.devices, rs.reserved)
    ensures var r := Release(rs, applied, env); StoreInvariant(r.world.devices) && r.error.None?
  {
    UnlockAllPasses(rs.reservation.reservationType, rs.world.devices, rs.reserved, env);
    UnlockAllKeepsInvariant(rs.reservation.reservationType, rs.world.devices, rs.reserved, env);
  }

  /** A sweep step keeps device ids unique and every device consistent, and
      it fails exactly for a reservation without a request list. */
  lemma ProcessKeepsInvariant(w: World, list: seq<ReservationApplied>, reservation: Reservation, env: Env)
    requires StoreInvariant(w.devices)
    ensures var r := ProcessReservation(w, list, reservation, env);
      && StoreInvariant(r.world.devices)
      && (r.error.Some? <==> reservation.requestedDevices.None?)
  {
    if reservation.requestedDevices.Some? {
      var requests := reservation.requestedDevices.value;
      if |requests| > 1 {
        EligibilityKeepsInvariant(w.devices, requests, env.shuffle);
      }
      var e := if |requests| > 1 then CheckEligibility(w.devices, requests, env.shuffle) else Eligibility(true, w.devices);
      if e.eligible {
        var s0 := Reserving(w.(devices := e.devices), reservation, []);
        ReserveLoopKeepsInvariant(s0, requests, env);
        ReserveLoopProperties(s0, requests, env);
        ReleaseKeepsInvariant(ReserveLoop(s0, requests, env), list, env);
      }
    }
  }

  /** Over a whole sweep: the store invariant holds afterwards, and a sweep
      ends in failure only at a reservation without a request list. */
  lemma {:induction false} SweepKeepsInvariant(s: Sweep, pending: seq<Reservation>, env: Env)
    requires StoreInvariant(s.world.devices) && s.error.None?
    ensures var r := SweepLoop(s, pending, env);
      && StoreInvariant(r.world.devices)
      && (r.error.Some? ==> exists k :: 0 <= k < |pending| && pending[k].requestedDevices.None?)
    decreases |pending|
  {
    if pending != [] {
      var next := ProcessReservation(s.world, s.appliedList, pending[0], env);
      ProcessKeepsInvariant(s.world, s.appliedList, pending[0], env);
      if next.error.None? {
        SweepKeepsInvariant(next, pending[1..], env);
        var r := SweepLoop(next, pending[1..], env);
        if r.error.Some? {
          var k :| 0 <= k < |pending[1..]| && pending[1..][k].requestedDevices.None?;
          assert pending[k + 1].requestedDevices.None?;
        }
      } else {
        assert pending[0].requestedDevices.None?;
      }
    }
  }

  // ---------------------------------------------------------------------
  // What a sweep step does to the queue and the applied records

  lemma {:induction false} ReserveLoopKeepsQueueIds(s: Reserving, requests: seq<RequestedDevice>, env: Env)
    ensures var r := ReserveLoop(s, requests, env);
      |r.world.queue| == |s.world.queue|
      && forall i :: 0 <= i < |s.world.queue| ==> r.world.queue[i].id == s.world.queue[i].id
    decreases |requests|
  {
    if requests != [] {
      ReserveLoopKeepsQueueIds(ReserveStep(s, requests[0], env), requests[1..], env);
    }
  }

  /** A reservation leaves the queue only when an applied record with its id
      and one reserved device per request is created, every one of those
      devices being stored Locked, unavailable and distinct; otherwise the
      queue keeps its ids in place and no applied record is added. */
  lemma ProcessRemovesOnlyApplied(w: World, list: seq<ReservationApplied>, reservation: Reservation, env: Env)
    ensures var r := ProcessReservation(w, list, reservation, env);
      || (&& r.world.applied == w.applied
          && |r.world.queue| == |w.queue|
          && (forall i :: 0 <= i < |w.queue| ==> r.world.queue[i].id == w.queue[i].id)
          && r.appliedList == list)
      || (&& reservation.requestedDevices.Some?
          && |r.world.applied| == |w.applied| + 1
          && r.world.applied[..|w.applied|] == w.applied
          && var ra := r.world.applied[|w.applied|];
             && ra.id == reservation.id
             && |ra.reservedDevices| == |reservation.requestedDevices.value|
             && HeldLocked(r.world.devices, ra.reservedDevices)
             && (forall x :: x in r.world.queue ==> x.id != reservation.id)
             && r.appliedList == (list + [ra]) + (list + [ra]))
  {
    if reservation.requestedDevices.Some? {
      var requests := reservation.requestedDevices.value;
      var e := if |requests| > 1 then CheckEligibility(w.devices, requests, env.shuffle) else Eligibility(true, w.devices);
      var w1 := w.(devices := e.devices);
      if e.eligible {
        var s0 := Reserving(w1, reservation, []);
        ReserveLoopProperties(s0, requests, env);
        ReserveLoopKeepsQueueIds(s0, requests, env);
        var rs := ReserveLoop(s0, requests, env);
        if |rs.reserved| == |requests| {
          var ra := AppliedFor(rs.reservation, rs.reserved);
          if !env.applyRaises(ra) {
            var r := ProcessReservation(w, list, reservation, env);
            assert r.world.applied == w.applied + [ra];
            assert r.world.applied[..|w.applied|] == w.applied;
          }
        }
      }
    }
  }

  /** The answer of a sweep: when it finishes, it reports true exactly when
      it created at least one applied reservation. */
  lemma {:induction false} SweepReportsCreation(s: Sweep, pending: seq<Reservation>, env: Env, base: seq<ReservationApplied>)
    requires s.error.None?
    requires |s.world.applied| >= |base| && s.world.applied[..|base|] == base
    requires |s.appliedList| > 0 <==> |s.world.applied| > |base|
    ensures var r := SweepLoop(s, pending, env);
      && |r.world.applied| >= |base| && r.world.applied[..|base|] == base
      && (r.error.None? ==> (|r.appliedList| > 0 <==> |r.world.applied| > |base|))
    decreases |pending|
  {
    if pending != [] {
      var next := ProcessReservation(s.world, s.appliedList, pending[0], env);
      ProcessRemovesOnlyApplied(s.world, s.appliedList, pending[0], env);
      if next.error.None? {
        assert next.world.applied[..|s.world.applied|] == s.world.applied;
        assert next.world.applied[..|base|] == s.world.applied[..|base|];
        SweepReportsCreation(next, pending[1..], env, base);
      }
    }
  }

  /** A reservation requesting several devices by id that passes the
      pre-check is never applied: the pre-check leaves its devices
      unavailable, so the lock loop skips every one of them. The devices stay
      held, the reservation stays queued and nothing is applied. */
  lemma IdReservationsAreNeverApplied(w: World, list: seq<ReservationApplied>, reservation: Reservation, env: Env)
    requires reservation.requestedDevices.Some?
    requires |reservation.requestedDevices.value| > 1
    requires forall j :: 0 <= j < |reservation.requestedDevices.value| ==> reservation.requestedDevices.value[j].deviceId.Some?
    requires CheckEligibility(w.devices, reservation.requestedDevices.value, env.shuffle).eligible
    ensures var r := ProcessReservation(w, list, reservation, env);
      && r == Sweep(w.(devices := CheckEligibility(w.devices, reservation.requestedDevices.value, env.shuffle).devices), list, None)
      && forall j :: 0 <= j < |reservation.requestedDevices.value| ==>
           var id := reservation.requestedDevices.value[j].deviceId.value;
           FindDevice(r.world.devices, id).Some? && !FindDevice(r.world.devices, id).value.available
  {
    var requests := reservation.requestedDevices.value;
    var devices := CheckEligibility(w.devices, requests, env.shuffle).devices;
    HoldLoopTakesIds(w.devices, requests, env.shuffle, true, []);
    var s0 := Reserving(w.(devices := devices), reservation, []);
    ReserveLoopSkipsTaken(s0, requests, env);
  }

  /** Every id requested by an eligible pre-check is stored unavailable
      afterwards. */
  lemma {:induction false} HoldLoopTakesIds(devices: seq<Device>, requests: seq<RequestedDevice>, shuffle: seq<Device> -> nat,
                                            eligible: bool, held: seq<Device>)
    ensures var h := HoldLoop(devices, requests, shuffle, eligible, held);
      && (!eligible ==> !h.eligible)
      && (h.eligible ==> forall j :: 0 <= j < |requests| && requests[j].deviceId.Some? ==>
            FindDevice(h.devices, requests[j].deviceId.value).Some? && !FindDevice(h.devices, requests[j].deviceId.value).value.available)
    decreases |requests|
  {
    if requests != [] {
      var h := HoldLoop(devices, requests, shuffle, eligible, held);
      match MatchDevice(devices, requests[0], shuffle)
      case None =>
        HoldLoopTakesIds(devices, requests[1..], shuffle, false, held);
      case Some(d) =>
        if !d.available {
          HoldLoopTakesIds(devices, requests[1..], shuffle, false, held);
        } else {
          var taken := d.(available := false);
          var next := ReplaceDevice(devices, taken);
          HoldLoopTakesIds(next, requests[1..], shuffle, eligible, held + [taken]);
          if h.eligible {
            forall j | 0 <= j < |requests| && requests[j].deviceId.Some?
              ensures FindDevice(h.devices, requests[j].deviceId.value).Some?
              ensures !FindDevice(h.devices, requests[j].deviceId.value).value.available
            {
              if j == 0 {
                FindAfterReplace(devices, taken, d.id);
                HoldLoopKeepsTaken(next, requests[1..], shuffle, eligible, held + [taken], d.id);
              } else {
                assert requests[1..][j - 1] == requests[j];
              }
            }
          }
        }
    }
  }

  /** Once the pre-check has made a device unavailable it stays so. */
  lemma {:induction false} HoldLoopKeepsTaken(devices: seq<Device>, requests: seq<RequestedDevice>, shuffle: seq<Device> -> nat,
                                              eligible: bool, held: seq<Device>, id: string)
    requires FindDevice(devices, id).Some? && !FindDevice(devices, id).value.available
    ensures var h := HoldLoop(devices, requests, shuffle, eligible, held);
      FindDevice(h.devices, id).Some? && !FindDevice(h.devices, id).value.available
    decreases |requests|
  {
    if requests != [] {
      match MatchDevice(devices, requests[0], shuffle)
      case None =>
        HoldLoopKeepsTaken(devices, requests[1..], shuffle, false, held, id);
      case Some(d) =>
        if !d.available {
          HoldLoopKeepsTaken(devices, requests[1..], shuffle, false, held, id);
        } else {
          var taken := d.(available := false);
          FindAfterReplace(devices, taken, id);
          HoldLoopKeepsTaken(ReplaceDevice(devices, taken), requests[1..], shuffle, eligible, held + [taken], id);
        }
    }
  }

  /** The lock loop does nothing for id requests whose devices are all stored
      unavailable. */
  lemma {:induction false} ReserveLoopSkipsTaken(s: Reserving, requests: seq<RequestedDevice>, env: Env)
    requires forall j :: 0 <= j < |requests| ==>
      requests[j].deviceId.Some? && FindDevice(s.world.devices, requests[j].deviceId.value).Some?
      && !FindDevice(s.world.devices, requests[j].deviceId.value).value.available
    ensures ReserveLoop(s, requests, env) == s
    decreases |requests|
  {
    if requests != [] {
      assert ReserveStep(s, requests[0], env) == s;
      forall j | 0 <= j < |requests[1..]|
        ensures requests[1..][j].deviceId.Some? && FindDevice(s.world.devices, requests[1..][j].deviceId.value).Some?
        ensures !FindDevice(s.world.devices, requests[1..][j].deviceId.value).value.available
      {
        assert requests[1..][j] == requests[j + 1];
      }
      ReserveLoopSkipsTaken(s, requests[1..], env);
    }
  }

  // ---------------------------------------------------------------------
  // Methods

  method LoadReservationQueue(client: Store) returns (queue: seq<Reservation>)
    ensures queue == client.queue
  {
    queue := client.GetReservations();
  }

  method ApplyAvailableReservations(client: Store, env: Env) returns (r: Result<bool, Failure>)
    modifies client
    ensures var f := ApplyAvailable(old(client.State()), env);
      && client.State() == f.world
      && r == if f.error.Some? then Err(f.error.value) else Ok(|f.appliedList| > 0)
  {
    var reservationQueue := LoadReservationQueue(client);
    var appliedReservations: seq<ReservationApplied> := [];
    for i := 0 to |reservationQueue|
      invariant SweepLoop(Sweep(client.State(), appliedReservations, None), reservationQueue[i..], env)
             == ApplyAvailable(old(client.State()), env)
    {
      assert reservationQueue[i..][1..] == reservationQueue[i + 1..];
      ghost var before := client.State();
      var reservation := reservationQueue[i];
      var reservedDevices: seq<ReservedDevice> := [];
      if reservation.requestedDevices.None? {
        return Err(NullRequestedDevices(reservation.id));
      }
      var reservationEligible := true;
      if |reservation.requestedDevices.value| > 1 {
        reservationEligible := IsReservationEligible(reservation, client, env);
      }
      if !reservationEligible {
        continue;
      }
      ghost var checked := client.State();
      var requests := reservation.requestedDevices.value;
      reservation, reservedDevices := ReserveAllRequestedDevices(reservation, reservedDevices, client, env);
      assert Reserving(client.State(), reservation, reservedDevices)
          == ReserveLoop(Reserving(checked, reservationQueue[i], []), requests, env);
      if |reservedDevices| == |requests| {
        var added := AddAppliedReservation(appliedReservations, reservation, reservedDevices, client, env);
        if added.Err? {
          var unlocked := UnlockAllReservedDevicesForFailedReservation(reservation, reservedDevices, client, env);
          if unlocked.Fail? {
            return Err(unlocked.error);
          }
          continue;
        }
        appliedReservations := added.value + added.value;
        client.DeleteReservation(reservation.id);
      } else if |reservedDevices| > 0 {
        var unlocked := UnlockAllReservedDevicesForFailedReservation(reservation, reservedDevices, client, env);
        if unlocked.Fail? {
          return Err(unlocked.error);
        }
      }
    }
    assert reservationQueue[|reservationQueue|..] == [];
    r := Ok(|appliedReservations| > 0);
  }
}
