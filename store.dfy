/** The records the core reads and writes: the device pool, the reservation
    queue and the applied reservations. The reservation service reaches them
    through the REST client and the controllers through their repositories;
    both fronts are modelled by one class over the same records. Calls whose
    outcome the core cannot see (the shuffle, Appium session start and stop,
    the creation of an applied record) are answered by an environment. */
module Store {
  import opened Wrappers
  import opened Models

  // ---------------------------------------------------------------------
  // Device records

  /** GetDevice: the stored device with that id, or null. */
  function FindDevice(devices: seq<Device>, id: string): (r: Option<Device>)
    ensures r.Some? ==> r.value in devices && r.value.id == id
    ensures r.None? <==> forall i :: 0 <= i < |devices| ==> devices[i].id != id
  {
    if devices == [] then None
    else if devices[0].id == id then Some(devices[0])
    else FindDevice(devices[1..], id)
  }

  /** UpdateDevice: the stored record with the device's id is overwritten. */
  function ReplaceDevice(devices: seq<Device>, d: Device): (r: seq<Device>)
    ensures |r| == |devices|
    ensures forall i :: 0 <= i < |r| ==> r[i] == (if devices[i].id == d.id then d else devices[i])
  {
    if devices == [] then []
    else [if devices[0].id == d.id then d else devices[0]] + ReplaceDevice(devices[1..], d)
  }

  /** Repository Remove: every record with that id is dropped. */
  function RemoveDevice(devices: seq<Device>, id: string): (r: seq<Device>)
    ensures forall d :: d in r <==> d in devices && d.id != id
  {
    if devices == [] then []
    else (if devices[0].id == id then [] else [devices[0]]) + RemoveDevice(devices[1..], id)
  }

  /** The primary-key rule of the device table. */
  predicate UniqueIds(devices: seq<Device>) {
    forall i, j :: 0 <= i < j < |devices| ==> devices[i].id != devices[j].id
  }

  /** After persisting d, reading d's id gives d back and every other id reads
      as before. */
  lemma {:induction false} FindAfterReplace(devices: seq<Device>, d: Device, x: string)
    ensures FindDevice(ReplaceDevice(devices, d), x)
         == if x == d.id && FindDevice(devices, x).Some? then Some(d) else FindDevice(devices, x)
  {
    if devices != [] {
      FindAfterReplace(devices[1..], d, x);
      assert ReplaceDevice(devices, d)[1..] == ReplaceDevice(devices[1..], d);
    }
  }

  lemma {:induction false} FindUnique(devices: seq<Device>, i: nat)
    requires UniqueIds(devices) && i < |devices|
    ensures FindDevice(devices, devices[i].id) == Some(devices[i])
  {
    if i > 0 {
      assert UniqueIds(devices[1..]);
      FindUnique(devices[1..], i - 1);
    }
  }

  /** Persisting a device never changes the set of ids, so the key rule holds. */
  lemma ReplaceKeepsUniqueIds(devices: seq<Device>, d: Device)
    requires UniqueIds(devices)
    ensures UniqueIds(ReplaceDevice(devices, d))
  {
  }

  /** Two versions of the device table hold the same ids in the same places. */
  predicate SameIds(a: seq<Device>, b: seq<Device>) {
    |a| == |b| && forall i :: 0 <= i < |a| ==> a[i].id == b[i].id
  }

  /** Every stored device obeys the status/availability rule. */
  predicate AllConsistent(devices: seq<Device>) {
    forall i :: 0 <= i < |devices| ==> LockConsistent(devices[i])
  }

  // ---------------------------------------------------------------------
  // Reservation queue and applied reservations

  function FindReservation(queue: seq<Reservation>, id: string): (r: Option<Reservation>)
    ensures r.Some? ==> r.value in queue && r.value.id == id
    ensures r.None? <==> forall i :: 0 <= i < |queue| ==> queue[i].id != id
  {
    if queue == [] then None
    else if queue[0].id == id then Some(queue[0])
    else FindReservation(queue[1..], id)
  }

  /** UpdateReservation: the queued record with that id is overwritten. */
  function ReplaceReservation(queue: seq<Reservation>, res: Reservation): (r: seq<Reservation>)
    ensures |r| == |queue|
    ensures forall i :: 0 <= i < |r| ==> r[i] == (if queue[i].id == res.id then res else queue[i])
  {
    if queue == [] then []
    else [if queue[0].id == res.id then res else queue[0]] + ReplaceReservation(queue[1..], res)
  }

  /** DeleteReservation: every queued record with that id is dropped. */
  function RemoveReservation(queue: seq<Reservation>, id: string): (r: seq<Reservation>)
    ensures forall x :: x in r <==> x in queue && x.id != id
    ensures |r| <= |queue|
  {
    if queue == [] then []
    else (if queue[0].id == id then [] else [queue[0]]) + RemoveReservation(queue[1..], id)
  }

  function FindApplied(applied: seq<ReservationApplied>, id: string): (r: Option<ReservationApplied>)
    ensures r.Some? ==> r.value in applied && r.value.id == id
    ensures r.None? <==> forall i :: 0 <= i < |applied| ==> applied[i].id != id
  {
    if applied == [] then None
    else if applied[0].id == id then Some(applied[0])
    else FindApplied(applied[1..], id)
  }

  function RemoveApplied(applied: seq<ReservationApplied>, id: string): (r: seq<ReservationApplied>)
    ensures forall x :: x in r <==> x in applied && x.id != id
  {
    if applied == [] then []
    else (if applied[0].id == id then [] else [applied[0]]) + RemoveApplied(applied[1..], id)
  }

  // ---------------------------------------------------------------------
  // The whole state and the environment

  datatype World = World(devices: seq<Device>, queue: seq<Reservation>, applied: seq<ReservationApplied>)

  /** Answers of the collaborators outside the core. shuffle gives the index
      (modulo the length) that SelectRandomDevice's Guid ordering puts first;
      startSession gives the Appium endpoint or None when starting raises;
      stopSession is what StopAppiumForDeviceIdAsync returns; applyRaises says
      whether the REST call creating an applied reservation raises. */
  datatype Env = Env(
    shuffle: seq<Device> -> nat,
    startSession: string -> Option<string>,
    stopSession: string -> bool,
    applyRaises: ReservationApplied -> bool)

  class Store {
    var devices: seq<Device>
    var queue: seq<Reservation>
    var applied: seq<ReservationApplied>

    function State(): World
      reads this
    {
      World(devices, queue, applied)
    }

    constructor (w: World)
      ensures State() == w
    {
      devices, queue, applied := w.devices, w.queue, w.applied;
    }

    method GetDevice(id: string) returns (r: Option<Device>)
      ensures r == FindDevice(devices, id)
    {
      r := FindDevice(devices, id);
    }

    method GetDevices() returns (r: seq<Device>)
      ensures r == devices
    {
      r := devices;
    }

    /** Persists the device and returns the stored copy. */
    method UpdateDevice(d: Device) returns (r: Device)
      modifies this
      ensures r == d
      ensures State() == old(State()).(devices := ReplaceDevice(old(devices), d))
    {
      devices := ReplaceDevice(devices, d);
      r := d;
    }

    method AddDevice(d: Device)
      modifies this
      ensures State() == old(State()).(devices := old(devices) + [d])
    {
      devices := devices + [d];
    }

    method RemoveDeviceById(id: string)
      modifies this
      ensures State() == old(State()).(devices := RemoveDevice(old(devices), id))
    {
      devices := RemoveDevice(devices, id);
    }

    method GetReservations() returns (r: seq<Reservation>)
      ensures r == queue
    {
      r := queue;
    }

    method GetReservation(id: string) returns (r: Option<Reservation>)
      ensures r == FindReservation(queue, id)
    {
      r := FindReservation(queue, id);
    }

    method AddReservation(res: Reservation)
      modifies this
      ensures State() == old(State()).(queue := old(queue) + [res])
    {
      queue := queue + [res];
    }

    method UpdateReservation(res: Reservation)
      modifies this
      ensures State() == old(State()).(queue := ReplaceReservation(old(queue), res))
    {
      queue := ReplaceReservation(queue, res);
    }

    method DeleteReservation(id: string)
      modifies this
      ensures State() == old(State()).(queue := RemoveReservation(old(queue), id))
    {
      queue := RemoveReservation(queue, id);
    }

    method GetApplied(id: string) returns (r: Option<ReservationApplied>)
      ensures r == FindApplied(applied, id)
    {
      r := FindApplied(applied, id);
    }

    method AddApplied(ra: ReservationApplied)
      modifies this
      ensures State() == old(State()).(applied := old(applied) + [ra])
    {
      applied := applied + [ra];
    }

    method DeleteApplied(id: string)
      modifies this
      ensures State() == old(State()).(applied := RemoveApplied(old(applied), id))
    {
      applied := RemoveApplied(applied, id);
    }

    /** ApplyReservation: the REST call that creates an applied reservation. */
    method ApplyReservation(ra: ReservationApplied, env: Env) returns (r: Result<ReservationApplied, Failure>)
      modifies this
      ensures env.applyRaises(ra) ==> r == Err(ApplyFailed(ra.id)) && State() == old(State())
      ensures !env.applyRaises(ra) ==> r == Ok(ra) && State() == old(State()).(applied := old(applied) + [ra])
    {
      if env.applyRaises(ra) {
        r := Err(ApplyFailed(ra.id));
      } else {
        applied := applied + [ra];
        r := Ok(ra);
      }
    }
  }
}
