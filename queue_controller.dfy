/** ReservationsQueueController: validation of a new queued reservation
    (missing body, empty request list, duplicate device ids, requests no
    device in the pool matches) and the guards of Delete and Update. */
module QueueController {
  import opened Wrappers
  import opened Models
  import opened Store
  import opened Matcher
  import opened Http

  // ---------------------------------------------------------------------
  // Duplicate device ids

  /** Some non-null DeviceId occurs in more than one request: the grouping
      of the non-null ids has a group of two or more. */
  predicate HasDuplicateDeviceIds(requests: seq<RequestedDevice>)
    decreases |requests|
  {
    && requests != []
    && (|| (requests[0].deviceId.Some? && requests[0].deviceId in DeviceIdsOf(requests[1..]))
        || HasDuplicateDeviceIds(requests[1..]))
  }

  /** The DeviceIds the requests carry, null ones left out. */
  function DeviceIdsOf(requests: seq<RequestedDevice>): (ids: set<Option<string>>)
    ensures forall x :: x in ids <==> exists j :: 0 <= j < |requests| && requests[j].deviceId == x && x.Some?
    decreases |requests|
  {
    if requests == [] then {}
    else (if requests[0].deviceId.Some? then {requests[0].deviceId} else {}) + DeviceIdsOf(requests[1..])
  }

  /** Duplicates are exactly two positions with the same non-null id; requests
      without a DeviceId never count. */
  lemma {:induction false} DuplicateDeviceIdsIff(requests: seq<RequestedDevice>)
    ensures HasDuplicateDeviceIds(requests) <==>
      exists i, j :: 0 <= i < j < |requests| && requests[i].deviceId.Some? && requests[i].deviceId == requests[j].deviceId
    decreases |requests|
  {
    if requests != [] {
      var rest := requests[1..];
      DuplicateDeviceIdsIff(rest);
      if HasDuplicateDeviceIds(requests) {
        if requests[0].deviceId.Some? && requests[0].deviceId in DeviceIdsOf(rest) {
          var j :| 0 <= j < |rest| && rest[j].deviceId == requests[0].deviceId;
          assert requests[j + 1] == rest[j];
        } else {
          var i, j :| 0 <= i < j < |rest| && rest[i].deviceId.Some? && rest[i].deviceId == rest[j].deviceId;
          assert requests[i + 1] == rest[i] && requests[j + 1] == rest[j];
        }
      }
      if exists i, j :: 0 <= i < j < |requests| && requests[i].deviceId.Some? && requests[i].deviceId == requests[j].deviceId {
        var i, j :| 0 <= i < j < |requests| && requests[i].deviceId.Some? && requests[i].deviceId == requests[j].deviceId;
        if i == 0 {
          assert rest[j - 1] == requests[j];
        } else {
          assert rest[i - 1] == requests[i] && rest[j - 1] == requests[j];
        }
      }
    }
  }

  // ---------------------------------------------------------------------
  // Unmatched requests

  /** A request no device in the pool matches. */
  predicate IsUnmatched(devices: seq<Device>, shuffle: seq<Device> -> nat, requested: RequestedDevice) {
    MatchDevice(devices, requested, shuffle).None?
  }

  /** The requests no device matches, in request order. */
  function UnmatchedRequests(devices: seq<Device>, shuffle: seq<Device> -> nat, requests: seq<RequestedDevice>): seq<RequestedDevice> {
    Where(requests, (rq: RequestedDevice) => IsUnmatched(devices, shuffle, rq))
  }

  /** The unmatched requests are exactly those no stored device is accepted
      by, whatever the shuffle; there are none exactly when every request is
      accepted by some stored device. */
  lemma UnmatchedIffNoDeviceAccepted(devices: seq<Device>, shuffle: seq<Device> -> nat, requests: seq<RequestedDevice>)
    ensures forall rq :: rq in UnmatchedRequests(devices, shuffle, requests) <==>
      rq in requests && forall i :: 0 <= i < |devices| ==> !Accepts(rq, devices[i])
    ensures UnmatchedRequests(devices, shuffle, requests) == [] <==>
      forall j :: 0 <= j < |requests| ==> exists i :: 0 <= i < |devices| && Accepts(requests[j], devices[i])
  {
    var p := (rq: RequestedDevice) => IsUnmatched(devices, shuffle, rq);
    forall rq ensures rq in Where(requests, p) <==> rq in requests && forall i :: 0 <= i < |devices| ==> !Accepts(rq, devices[i]) {
      var _ := MatchDevice(devices, rq, shuffle);
    }
    WhereEmpty(requests, p);
    forall j | 0 <= j < |requests| ensures p(requests[j]) <==> forall i :: 0 <= i < |devices| ==> !Accepts(requests[j], devices[i]) {
      var _ := MatchDevice(devices, requests[j], shuffle);
    }
  }

  /** ValidateRequestedDevices: every request is looked up; the requests that
      find no device are collected in order, and validation passes exactly
      when there are none. */
  method ValidateRequestedDevices(requests: seq<RequestedDevice>, client: Store, env: Env)
    returns (valid: bool, unmatched: seq<RequestedDevice>)
    ensures unmatched == UnmatchedRequests(client.devices, env.shuffle, requests)
    ensures valid <==> unmatched == []
  {
    unmatched := [];
    for i := 0 to |requests|
      invariant unmatched == UnmatchedRequests(client.devices, env.shuffle, requests[..i])
    {
      var res := FindMatchingDevice(requests[i], client, env);
      if res.None? {
        unmatched := unmatched + [requests[i]];
      }
      assert requests[..i + 1][..i] == requests[..i];
    }
    assert requests[..|requests|] == requests;
    valid := unmatched == [];
  }

  // ---------------------------------------------------------------------
  // CreateAsync

  /** The answer of CreateAsync: the checks in their order, ending in 201. */
  function CreateQueuedResponse(body: Option<Reservation>, devices: seq<Device>, shuffle: seq<Device> -> nat): Response<Reservation> {
    if body.None? then ClientError(400, "Reservation is empty.")
    else
      var reservation := body.value;
      if reservation.requestedDevices.None? || reservation.requestedDevices.value == [] then
        ClientError(400, "RequestedDevices property is empty.")
      else
        var requests := reservation.requestedDevices.value;
        if HasDuplicateDeviceIds(requests) then
          ClientError(400, "RequestedDevices property contains duplicate DeviceId.")
        else
          var unmatched := UnmatchedRequests(devices, shuffle, requests);
          if unmatched != [] then Unmatched(unmatched) else Created(reservation)
  }

  /** A reservation is accepted exactly when it has a body with a non-empty
      request list, no duplicate device id, and every request accepted by some
      stored device; an unmatched rejection lists every request no device
      accepts, and only those. */
  lemma CreateQueuedAcceptance(body: Option<Reservation>, devices: seq<Device>, shuffle: seq<Device> -> nat)
    ensures var r := CreateQueuedResponse(body, devices, shuffle);
      && (r.Created? <==>
            && body.Some? && body.value.requestedDevices.Some? && body.value.requestedDevices.value != []
            && !HasDuplicateDeviceIds(body.value.requestedDevices.value)
            && forall j :: 0 <= j < |body.value.requestedDevices.value| ==>
                 exists i :: 0 <= i < |devices| && Accepts(body.value.requestedDevices.value[j], devices[i]))
      && (r.Created? ==> r.created == body.value)
      && (r.Unmatched? ==>
            && body.Some? && body.value.requestedDevices.Some?
            && r.requests != []
            && forall rq :: rq in r.requests <==>
                 rq in body.value.requestedDevices.value && forall i :: 0 <= i < |devices| ==> !Accepts(rq, devices[i]))
  {
    if body.Some? && body.value.requestedDevices.Some? {
      UnmatchedIffNoDeviceAccepted(devices, shuffle, body.value.requestedDevices.value);
    }
  }

  method CreateAsync(body: Option<Reservation>, client: Store, env: Env) returns (r: Response<Reservation>)
    modifies client
    ensures r == CreateQueuedResponse(body, old(client.devices), env.shuffle)
    ensures r.Created? ==> client.State() == old(client.State()).(queue := old(client.queue) + [body.value])
    ensures !r.Created? ==> client.State() == old(client.State())
  {
    if body.None? {
      return ClientError(400, "Reservation is empty.");
    }
    var reservation := body.value;
    if reservation.requestedDevices.None? || reservation.requestedDevices.value == [] {
      return ClientError(400, "RequestedDevices property is empty.");
    }
    var requests := reservation.requestedDevices.value;
    if |requests| >= 1 {
      if HasDuplicateDeviceIds(requests) {
        return ClientError(400, "RequestedDevices property contains duplicate DeviceId.");
      }
      var valid, unmatched := ValidateRequestedDevices(requests, client, env);
      if !valid {
        return Unmatched(unmatched);
      }
    }
    client.AddReservation(reservation);
    r := Created(reservation);
  }

  // ---------------------------------------------------------------------
  // Delete and Update

  /** The characters .NET's char.IsWhiteSpace accepts. */
  predicate IsWhiteSpace(c: char) {
    || ('\t' <= c <= '\r') || c == ' ' || c == '\U{0085}' || c == '\U{00A0}' || c == '\U{1680}'
    || ('\U{2000}' <= c <= '\U{200A}') || c == '\U{2028}' || c == '\U{2029}' || c == '\U{202F}'
    || c == '\U{205F}' || c == '\U{3000}'
  }

  /** string.IsNullOrWhiteSpace, a null id being the empty string. */
  predicate IsNullOrWhiteSpace(s: string) {
    forall i :: 0 <= i < |s| ==> IsWhiteSpace(s[i])
  }

  /** Delete: a blank id is 400 and an unknown one 404, before anything is
      removed; otherwise the reservation leaves the queue. */
  method Delete(id: string, client: Store) returns (r: Response<Reservation>)
    modifies client
    ensures IsNullOrWhiteSpace(id) ==> r == ClientError(400, "Empty id.") && client.State() == old(client.State())
    ensures !IsNullOrWhiteSpace(id) && FindReservation(old(client.queue), id).None? ==>
      r == ClientError(404, "Reservation not found in the database.") && client.State() == old(client.State())
    ensures !IsNullOrWhiteSpace(id) && FindReservation(old(client.queue), id).Some? ==>
      r == SuccessEmpty && client.State() == old(client.State()).(queue := RemoveReservation(old(client.queue), id))
  {
    var reservationFromQueue := client.GetReservation(id);
    if IsNullOrWhiteSpace(id) {
      return ClientError(400, "Empty id.");
    }
    if reservationFromQueue.None? {
      return ClientError(404, "Reservation not found in the database.");
    }
    client.DeleteReservation(id);
    r := SuccessEmpty;
  }

  /** Update: a missing body or one whose id differs from the route id is
      400, an unknown id 404; otherwise the stored reservation is replaced and
      returned. */
  method Update(id: string, body: Option<Reservation>, client: Store) returns (r: Response<Reservation>)
    modifies client
    ensures (body.None? || body.value.id != id) ==>
      r == ClientError(400, "Empty reservation in request") && client.State() == old(client.State())
    ensures body.Some? && body.value.id == id && FindReservation(old(client.queue), id).None? ==>
      r == ClientError(404, "Reservation not found in database.") && client.State() == old(client.State())
    ensures body.Some? && body.value.id == id && FindReservation(old(client.queue), id).Some? ==>
      r == Success(body.value) && client.State() == old(client.State()).(queue := ReplaceReservation(old(client.queue), body.value))
  {
    if body.None? || body.value.id != id {
      return ClientError(400, "Empty reservation in request");
    }
    var reservation := client.GetReservation(id);
    if reservation.None? {
      return ClientError(404, "Reservation not found in database.");
    }
    client.UpdateReservation(body.value);
    r := Success(body.value);
  }

  /** Update keeps the queue's ids, and a replaced reservation reads back as
      the body. */
  lemma UpdateReadsBack(queue: seq<Reservation>, res: Reservation)
    requires FindReservation(queue, res.id).Some?
    ensures FindReservation(ReplaceReservation(queue, res), res.id) == Some(res)
    ensures |ReplaceReservation(queue, res)| == |queue|
    ensures forall i :: 0 <= i < |queue| ==> ReplaceReservation(queue, res)[i].id == queue[i].id
  {
    ReplaceReservationFind(queue, res);
  }

  lemma {:induction false} ReplaceReservationFind(queue: seq<Reservation>, res: Reservation)
    requires FindReservation(queue, res.id).Some?
    ensures FindReservation(ReplaceReservation(queue, res), res.id) == Some(res)
    decreases |queue|
  {
    if queue[0].id != res.id {
      assert ReplaceReservation(queue, res)[1..] == ReplaceReservation(queue[1..], res);
      ReplaceReservationFind(queue[1..], res);
    }
  }

  /** Delete removes exactly the records with that id. */
  lemma DeleteRemovesOnlyThatId(queue: seq<Reservation>, id: string)
    ensures FindReservation(RemoveReservation(queue, id), id).None?
    ensures forall x :: x in queue && x.id != id ==> x in RemoveReservation(queue, id)
  {
  }
}
