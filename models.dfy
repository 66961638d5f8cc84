/** The records of the device pool and of reservations, and the defaults a new
    reservation starts with. */
module Models {
  import opened Wrappers

  datatype DeviceType = Unspecified | Android | IOS

  datatype DeviceStatus = Online | Offline | Locked | LockedOffline | FailedToInitialize

  datatype DeviceProperty = DeviceProperty(key: string, value: string)

  datatype Device = Device(
    id: string,
    name: string,
    deviceType: DeviceType,
    status: DeviceStatus,
    available: bool,
    appiumEndpoint: string,
    properties: seq<DeviceProperty>)

  /** What a client asks for. A null DeviceId is None; a null DeviceName is
      the empty string, since the matcher treats null and "" alike. */
  datatype RequestedDevice = RequestedDevice(
    deviceId: Option<string>,
    deviceType: DeviceType,
    deviceName: string,
    properties: seq<DeviceProperty>)

  datatype ReservationType = Appium | XcuiTest | Manual

  /** A queued reservation; a null RequestedDevices list is None. DateCreated is
      a clock reading, kept as an integer. */
  datatype Reservation = Reservation(
    id: string,
    dateCreated: int,
    requestedDevices: Option<seq<RequestedDevice>>,
    failedToApply: int,
    reservationType: ReservationType)

  /** The snapshot of a locked device that an applied reservation hands out. */
  datatype ReservedDevice = ReservedDevice(
    deviceId: string,
    deviceName: string,
    deviceType: DeviceType,
    appiumEndpoint: string)

  datatype ReservationApplied = ReservationApplied(
    id: string,
    reservedDevices: seq<ReservedDevice>,
    dateCreated: int,
    reservationType: ReservationType)

  /** The exceptions the core raises or lets through. */
  datatype Failure =
    | KeyNotFound(id: string)
    | SessionStartFailed(id: string)
    | UnlockFailed(id: string)
    | NullRequestedDevices(reservationId: string)
    | ApplyFailed(reservationId: string)
    | ProductVersionMissing(id: string)

  function Snapshot(d: Device): (rd: ReservedDevice)
    ensures rd.deviceId == d.id && rd.appiumEndpoint == d.appiumEndpoint
  {
    ReservedDevice(d.id, d.name, d.deviceType, d.appiumEndpoint)
  }

  /** The consistency rule between status and availability that the engine
      keeps: a Locked or LockedOffline device is never available. */
  predicate LockConsistent(d: Device) {
    (d.status == Locked || d.status == LockedOffline) ==> !d.available
  }

  // ---------------------------------------------------------------------
  // Reservation constructor defaults

  type HexDigit = d: nat | d < 16

  /** The 32 digits of Guid.NewGuid().ToString("n"). */
  type GuidDigits = g: seq<HexDigit> | |g| == 32 witness seq(32, _ => 0)

  /** The lower-case hexadecimal character of a digit. */
  function HexChar(d: HexDigit): (c: char)
    ensures IsLowerHex(c)
  {
    if d < 10 then ('0' as int + d) as char else ('a' as int + d - 10) as char
  }

  predicate IsLowerHex(c: char) {
    '0' <= c <= '9' || 'a' <= c <= 'f'
  }

  function HexString(g: seq<HexDigit>): (s: string)
    ensures |s| == |g|
    ensures forall i :: 0 <= i < |s| ==> s[i] == HexChar(g[i])
  {
    if g == [] then "" else [HexChar(g[0])] + HexString(g[1..])
  }

  /** new Reservation(): the id is the first 24 characters of a fresh GUID in
      "n" format, DateCreated is the clock reading, FailedToApply is 0, the type
      is Appium and RequestedDevices is still null. */
  function NewReservation(guid: GuidDigits, now: int): (r: Reservation)
    ensures |r.id| == 24 && forall i :: 0 <= i < 24 ==> IsLowerHex(r.id[i])
    ensures r.id == HexString(guid)[..24]
    ensures r.dateCreated == now && r.failedToApply == 0
    ensures r.reservationType == Appium && r.requestedDevices == None
  {
    Reservation(HexString(guid)[..24], now, None, 0, Appium)
  }

  lemma {:induction false} HexStringInjective(a: seq<HexDigit>, b: seq<HexDigit>)
    requires |a| == |b|
    ensures HexString(a) == HexString(b) <==> a == b
  {
    if HexString(a) == HexString(b) {
      forall i | 0 <= i < |a| ensures a[i] == b[i] {
        assert HexChar(a[i]) == HexString(a)[i] == HexString(b)[i] == HexChar(b[i]);
      }
    }
  }

  /** Two new reservations get the same id exactly when their GUIDs agree on
      the first 24 digits: the last 8 digits are thrown away. */
  lemma ReservationIdsCollideOnPrefix(g1: GuidDigits, g2: GuidDigits, t1: int, t2: int)
    ensures NewReservation(g1, t1).id == NewReservation(g2, t2).id <==> g1[..24] == g2[..24]
  {
    assert HexString(g1)[..24] == HexString(g1[..24]);
    assert HexString(g2)[..24] == HexString(g2[..24]);
    HexStringInjective(g1[..24], g2[..24]);
  }
}
