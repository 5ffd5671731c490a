/**
 * The device registry of the BLE store (hooks/useBle.ts): the list
 * `allDevices`, the duplicate check `setAllDevices` performs before it
 * appends, and the filter the scan callback applies to each report.
 */
module BleDevices {
  import opened Wrappers

  /** A discovered peripheral: its identifier and its advertised name, which may be null. */
  datatype Device = Device(id: string, name: Option<string>)

  predicate HasId(devices: seq<Device>, id: string) {
    exists k :: 0 <= k < |devices| && devices[k].id == id
  }

  /** No two entries of the registry share an identifier. */
  predicate UniqueIds(devices: seq<Device>) {
    forall i, j :: 0 <= i < j < |devices| ==> devices[i].id != devices[j].id
  }

  /** `allDevices.findIndex(d => d.id === id)`: the first position with that id, or -1. */
  function FindIndexById(devices: seq<Device>, id: string): (r: int)
    ensures -1 <= r < |devices|
    ensures r == -1 <==> !HasId(devices, id)
    ensures r >= 0 ==> devices[r].id == id && forall k :: 0 <= k < r ==> devices[k].id != id
  {
    if devices == [] then -1
    else if devices[0].id == id then 0
    else
      var r := FindIndexById(devices[1..], id);
      assert forall k :: 1 <= k < |devices| ==> devices[k] == devices[1..][k - 1];
      if r == -1 then -1 else r + 1
  }

  /** `isDuplicteDevice`: some entry already carries the device's id. */
  predicate IsDuplicate(devices: seq<Device>, device: Device)
    ensures IsDuplicate(devices, device) <==> HasId(devices, device.id)
  {
    FindIndexById(devices, device.id) > -1
  }

  /** The registry after `setAllDevices(device)`. */
  function AddDevice(devices: seq<Device>, device: Device): (r: seq<Device>)
    ensures |r| == if HasId(devices, device.id) then |devices| else |devices| + 1
    ensures r[..|devices|] == devices
    ensures |r| > |devices| ==> r[|devices|] == device
  {
    if IsDuplicate(devices, device) then devices else devices + [device]
  }

  /**
   * A device whose id is new is appended at the end behind every earlier
   * entry; a device whose id is present leaves the registry as it was.
   */
  lemma AddDeviceEffect(devices: seq<Device>, device: Device)
    ensures HasId(devices, device.id) ==> AddDevice(devices, device) == devices
    ensures !HasId(devices, device.id) ==> AddDevice(devices, device) == devices + [device]
    ensures HasId(AddDevice(devices, device), device.id)
  {
  }

  /** Adding keeps the identifiers of the registry distinct. */
  lemma AddDevicePreservesUniqueIds(devices: seq<Device>, device: Device)
    requires UniqueIds(devices)
    ensures UniqueIds(AddDevice(devices, device))
  {
  }

  /** Adding the same device a second time changes nothing. */
  lemma AddDeviceIdempotent(devices: seq<Device>, device: Device)
    ensures AddDevice(AddDevice(devices, device), device) == AddDevice(devices, device)
  {
  }

  /** The registry after `setAllDevices` has been called with each of `adds` in turn. */
  function AddAll(devices: seq<Device>, adds: seq<Device>): seq<Device>
    decreases |adds|
  {
    if adds == [] then devices else AddAll(AddDevice(devices, adds[0]), adds[1..])
  }

  /** Whatever sequence of devices is added, the identifiers stay distinct. */
  lemma {:induction false} AddAllPreservesUniqueIds(devices: seq<Device>, adds: seq<Device>)
    requires UniqueIds(devices)
    ensures UniqueIds(AddAll(devices, adds))
    decreases |adds|
  {
    if adds != [] {
      AddDevicePreservesUniqueIds(devices, adds[0]);
      AddAllPreservesUniqueIds(AddDevice(devices, adds[0]), adds[1..]);
    }
  }

  /** Earlier entries are never moved, replaced or removed by later adds. */
  lemma {:induction false} AddAllKeepsPrefix(devices: seq<Device>, adds: seq<Device>)
    ensures |devices| <= |AddAll(devices, adds)| <= |devices| + |adds|
    ensures AddAll(devices, adds)[..|devices|] == devices
    decreases |adds|
  {
    if adds != [] {
      var next := AddDevice(devices, adds[0]);
      AddAllKeepsPrefix(next, adds[1..]);
      assert next[..|devices|] == devices;
      assert AddAll(next, adds[1..])[..|devices|] == AddAll(next, adds[1..])[..|next|][..|devices|];
    }
  }

  /** Every id that was present, or that was added, is in the final registry. */
  lemma {:induction false} AddAllContainsEveryId(devices: seq<Device>, adds: seq<Device>, id: string)
    requires HasId(devices, id) || HasId(adds, id)
    ensures HasId(AddAll(devices, adds), id)
    decreases |adds|
  {
    if adds != [] {
      var next := AddDevice(devices, adds[0]);
      AddDeviceEffect(devices, adds[0]);
      if HasId(devices, id) {
        var k :| 0 <= k < |devices| && devices[k].id == id;
        assert next[..|devices|] == devices;
        assert next[k].id == id;
      } else if adds[0].id != id {
        var k :| 0 <= k < |adds| && adds[k].id == id;
        assert adds[1..][k - 1].id == id;
      }
      AddAllContainsEveryId(next, adds[1..], id);
    }
  }

  /** Every entry of the final registry was present before or was one of the adds. */
  lemma {:induction false} AddAllOnlyFromInputs(devices: seq<Device>, adds: seq<Device>, d: Device)
    requires d in AddAll(devices, adds)
    ensures d in devices || d in adds
    decreases |adds|
  {
    if adds != [] {
      var next := AddDevice(devices, adds[0]);
      AddAllOnlyFromInputs(next, adds[1..], d);
      if d in next && d !in devices {
        assert d == adds[0];
      }
    }
  }

  /** A device whose name is neither null nor empty, as the test `device.name` is truthy. */
  predicate Named(d: Device) {
    d.name.Some? && d.name.value != ""
  }

  /** A report the scan callback lets through: no error, a device, and a non-empty name. */
  predicate ScanAdmits(scanError: bool, device: Option<Device>)
    ensures scanError ==> !ScanAdmits(scanError, device)
    ensures device.None? ==> !ScanAdmits(scanError, device)
    ensures device.Some? && device.value.name.None? ==> !ScanAdmits(scanError, device)
    ensures device.Some? && device.value.name == Some("") ==> !ScanAdmits(scanError, device)
    ensures !scanError && device.Some? && device.value.name.Some? && |device.value.name.value| > 0 ==>
              ScanAdmits(scanError, device)
  {
    !scanError && device.Some? && Named(device.value)
  }

  /** The registry after the scan callback handled one report. */
  function ScanStep(devices: seq<Device>, scanError: bool, device: Option<Device>): (r: seq<Device>)
    ensures !ScanAdmits(scanError, device) ==> r == devices
    ensures ScanAdmits(scanError, device) ==> r == AddDevice(devices, device.value)
  {
    if scanError then devices
    else if device.Some? && Named(device.value) then AddDevice(devices, device.value)
    else devices
  }

  /** One report of the scan: the callback's `error` and `device` arguments. */
  datatype ScanReport = ScanReport(scanError: bool, device: Option<Device>)

  /** The registry after the scan callback handled each of `reports` in turn. */
  function ScanAll(devices: seq<Device>, reports: seq<ScanReport>): seq<Device>
    decreases |reports|
  {
    if reports == [] then devices
    else ScanAll(ScanStep(devices, reports[0].scanError, reports[0].device), reports[1..])
  }

  /**
   * Scanning into a registry of named devices with distinct ids leaves it so,
   * whatever the radio reports: errors and unnamed devices never get in.
   */
  lemma {:induction false} ScanAllKeepsRegistryNamedAndUnique(devices: seq<Device>, reports: seq<ScanReport>)
    requires UniqueIds(devices)
    requires forall k :: 0 <= k < |devices| ==> Named(devices[k])
    ensures UniqueIds(ScanAll(devices, reports))
    ensures forall k :: 0 <= k < |ScanAll(devices, reports)| ==> Named(ScanAll(devices, reports)[k])
    decreases |reports|
  {
    if reports != [] {
      var next := ScanStep(devices, reports[0].scanError, reports[0].device);
      if ScanAdmits(reports[0].scanError, reports[0].device) {
        AddDevicePreservesUniqueIds(devices, reports[0].device.value);
      }
      ScanAllKeepsRegistryNamedAndUnique(next, reports[1..]);
    }
  }
}
