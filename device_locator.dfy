/**
 * Device selection and report sending of the service (`find_device_path`,
 * `send_report`). Enumerations are inputs; opening the device and writing
 * the feature report is an oracle: `ioOk` says whether it succeeded.
 */
module DeviceLocator {
  import opened Wrappers
  import opened Hid

  /** The interface that carries the lighting control. */
  const Interface: int := 2
  /** The vendor-specific usage page of the lighting interface. */
  const VendorUsagePage: nat := 0xFF01

  /** The exact filter (interface and usage page) or the relaxed one (interface only). */
  predicate Selectable(d: HidDevice, requireUsagePage: bool) {
    d.interfaceNumber == Interface && (!requireUsagePage || d.usagePage == VendorUsagePage)
  }

  /** The linear scan with early exit: the first selectable index at or after `from`. */
  function FirstSelectable(devices: seq<HidDevice>, requireUsagePage: bool, from: nat): (r: Option<nat>)
    requires from <= |devices|
    ensures r.Some? ==> from <= r.value < |devices| && Selectable(devices[r.value], requireUsagePage)
    ensures r.Some? ==> forall j :: from <= j < r.value ==> !Selectable(devices[j], requireUsagePage)
    ensures r.None? ==> forall j :: from <= j < |devices| ==> !Selectable(devices[j], requireUsagePage)
    decreases |devices| - from
  {
    if from == |devices| then None
    else if Selectable(devices[from], requireUsagePage) then Some(from)
    else FirstSelectable(devices, requireUsagePage, from + 1)
  }

  /** `find_device_path`: the path of the first device on interface 2 with usage page 0xFF01. */
  function FindDevicePath(devices: seq<HidDevice>): (r: Option<string>)
    ensures forall i :: 0 <= i < |devices| && Selectable(devices[i], true)
                        && (forall j :: 0 <= j < i ==> !Selectable(devices[j], true))
                        ==> r == Some(devices[i].path)
    ensures (forall i :: 0 <= i < |devices| ==> !Selectable(devices[i], true)) <==> r.None?
  {
    match FirstSelectable(devices, true, 0)
    case Some(i) => Some(devices[i].path)
    case None => None
  }

  /** Python's truth test on the path: None and the empty path are both false. */
  predicate Truthy(p: Option<string>)
    ensures Truthy(p) ==> p.Some?
    ensures p.Some? ==> (Truthy(p) <==> |p.value| > 0)
  {
    p.Some? && p.value != []
  }

  /**
   * The path `send_report` writes to, or None when it gives up. `first` and
   * `second` are the results of its two calls to `hid.enumerate(VENDOR_ID,
   * PRODUCT_ID)`: the exact search runs over the first, the interface-only
   * fallback (taken only when the exact search gave no usable path) over the
   * second.
   */
  function SelectPath(first: seq<HidDevice>, second: seq<HidDevice>): (r: Option<string>)
    ensures r.Some? ==> r.value != []
    ensures Truthy(FindDevicePath(first)) ==> r == FindDevicePath(first)
    ensures forall j :: !Truthy(FindDevicePath(first)) && 0 <= j < |second| && Selectable(second[j], false)
                        && (forall k :: 0 <= k < j ==> !Selectable(second[k], false))
                        ==> r == if second[j].path != [] then Some(second[j].path) else None
    ensures !Truthy(FindDevicePath(first)) && (forall j :: 0 <= j < |second| ==> !Selectable(second[j], false))
            ==> r == None
  {
    var devicePath := FindDevicePath(first);
    var chosen :=
      if Truthy(devicePath) then devicePath
      else match FirstSelectable(second, false, 0)
        case Some(j) => Some(second[j].path)
        case None => devicePath;
    if Truthy(chosen) then chosen else None
  }

  /** How a call of `send_report` ended; only `Sent` returns True. */
  datatype SendOutcome = DeviceNotFound | Sent(path: string) | TransmissionFailed(path: string)

  /** `send_report`: locate the device, then open it and write the report (oracle `ioOk`). */
  function SendReport(first: seq<HidDevice>, second: seq<HidDevice>, ioOk: bool): (r: SendOutcome)
    ensures r.DeviceNotFound? <==> SelectPath(first, second).None?
    ensures r.Sent? <==> SelectPath(first, second).Some? && ioOk
    ensures !r.DeviceNotFound? ==> r.path == SelectPath(first, second).value
  {
    match SelectPath(first, second)
    case None => DeviceNotFound
    case Some(p) => if ioOk then Sent(p) else TransmissionFailed(p)
  }

  /**
   * With one stable enumeration whose paths are all non-empty, the device
   * chosen is the first exact match; failing that, the first device on
   * interface 2; failing that, none.
   */
  lemma LocateStable(devices: seq<HidDevice>)
    requires forall d :: d in devices ==> d.path != []
    ensures forall i :: 0 <= i < |devices| && Selectable(devices[i], true)
                        && (forall j :: 0 <= j < i ==> !Selectable(devices[j], true))
                        ==> SelectPath(devices, devices) == Some(devices[i].path)
    ensures (forall i :: 0 <= i < |devices| ==> !Selectable(devices[i], true))
            ==> forall i :: 0 <= i < |devices| && Selectable(devices[i], false)
                            && (forall j :: 0 <= j < i ==> !Selectable(devices[j], false))
                            ==> SelectPath(devices, devices) == Some(devices[i].path)
    ensures (forall i :: 0 <= i < |devices| ==> !Selectable(devices[i], false))
            ==> SelectPath(devices, devices) == None
  {
    var p := FindDevicePath(devices);
    if p.Some? {
      var i :| 0 <= i < |devices| && Selectable(devices[i], true) && devices[i].path == p.value;
      assert devices[i] in devices;
    }
  }

  /**
   * When no device of the host carries the configured identity, both
   * enumerations are empty and the send fails without any device I/O,
   * whatever the I/O would have done.
   */
  lemma UnknownIdentityNotFound(all: seq<HidDevice>, vendorId: nat, productId: nat, ioOk: bool)
    requires forall d :: d in all ==> !MatchesIds(d, vendorId, productId)
    ensures SendReport(Enumerate(all, vendorId, productId), Enumerate(all, vendorId, productId), ioOk) == DeviceNotFound
  {
    var devices := Enumerate(all, vendorId, productId);
    assert forall d :: d !in devices;
  }
}
