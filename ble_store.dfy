/**
 * The BLE store of hooks/useBle.ts: its two fields `allDevices` and
 * `connectedDevice`, the operations that change them, and the guarded
 * writes. The BLE library is an environment, `BleManager`, that records
 * every request made to it; the outcome of a connect or a discovery is
 * chosen by the environment and passed in.
 */
module BleStore {
  import opened Wrappers
  import opened BleDevices
  import opened BleCommand

  /** One `writeCharacteristicWithResponseForDevice` request. */
  datatype Write = Write(deviceId: string, serviceUuid: string, characteristicUuid: string, value: Encoded)

  /** A request made to the BLE library, with its outcome where it has one. */
  datatype RadioEvent =
    | ConnectAttempt(id: string, succeeded: bool)
    | DiscoverAttempt(id: string, succeeded: bool)
    | WriteRequest(write: Write)
    | Cancel(id: string)

  /** The request `stopData` and `sendDataToDevice` make to a device: the fixed service and characteristic. */
  function CommandWrite(deviceId: string, payload: string): (w: Write)
    ensures w.deviceId == deviceId && w.value == Base64(payload)
    ensures w.serviceUuid == "8c6332b8-bf32-4220-ad31-0d8c19003330"
    ensures w.characteristicUuid == "3a7f4056-0b5b-40be-99ba-fbe21644bd47"
  {
    Write(deviceId, ServiceUuid, CharacteristicUuid, Base64(payload))
  }

  /**
   * After `log`, a link to `id` has finished discovery and has not been
   * cancelled since.
   */
  ghost function LinkOpen(log: seq<RadioEvent>, id: string): bool
    decreases |log|
  {
    if log == [] then false
    else
      var e := log[|log| - 1];
      if e == DiscoverAttempt(id, true) then true
      else if e == Cancel(id) then false
      else LinkOpen(log[..|log| - 1], id)
  }

  /** Position `i` of the log is a successful discovery of `id` that no later event cancels. */
  ghost predicate OpenedAt(log: seq<RadioEvent>, i: int, id: string) {
    && 0 <= i < |log|
    && log[i] == DiscoverAttempt(id, true)
    && forall j :: i < j < |log| ==> log[j] != Cancel(id)
  }

  /**
   * The link to `id` is open exactly when some successful discovery of it
   * has not been followed by a cancellation of it.
   */
  lemma {:induction false} LinkOpenIffOpenedAndNotCancelled(log: seq<RadioEvent>, id: string)
    ensures LinkOpen(log, id) <==> exists i :: OpenedAt(log, i, id)
    decreases |log|
  {
    if log != [] {
      var n := |log| - 1;
      var pre := log[..n];
      var e := log[n];
      assert forall k :: 0 <= k < n ==> pre[k] == log[k];
      if e == DiscoverAttempt(id, true) {
        assert OpenedAt(log, n, id);
      } else if e == Cancel(id) {
        forall i | 0 <= i < |log| ensures !OpenedAt(log, i, id) {
          if i < n {
            assert log[n] == Cancel(id);
          }
        }
      } else {
        LinkOpenIffOpenedAndNotCancelled(pre, id);
        forall i ensures OpenedAt(log, i, id) <==> OpenedAt(pre, i, id) {
          if 0 <= i < n {
            if OpenedAt(pre, i, id) {
              forall j | i < j < |log| ensures log[j] != Cancel(id) {
                if j < n {
                  assert pre[j] != Cancel(id);
                }
              }
            }
          }
        }
      }
    }
  }

  /** Every write in the log went to a device whose link was open at that moment. */
  ghost predicate WritesOnOpenLinks(log: seq<RadioEvent>) {
    forall i :: 0 <= i < |log| && log[i].WriteRequest? ==> LinkOpen(log[..i], log[i].write.deviceId)
  }

  /** Extending the log by an event keeps every earlier write's justification. */
  lemma WritesOnOpenLinksExtend(log: seq<RadioEvent>, e: RadioEvent)
    requires WritesOnOpenLinks(log)
    requires e.WriteRequest? ==> LinkOpen(log, e.write.deviceId)
    ensures WritesOnOpenLinks(log + [e])
  {
    var log' := log + [e];
    forall i | 0 <= i < |log'| && log'[i].WriteRequest?
      ensures LinkOpen(log'[..i], log'[i].write.deviceId)
    {
      if i < |log| {
        assert log'[..i] == log[..i];
      } else {
        assert log'[..i] == log;
      }
    }
  }

  /** An event that is neither a successful discovery nor a cancellation of `id` leaves its link as it was. */
  lemma LinkOpenExtend(log: seq<RadioEvent>, e: RadioEvent, id: string)
    ensures LinkOpen(log + [e], id) ==
              if e == DiscoverAttempt(id, true) then true
              else if e == Cancel(id) then false
              else LinkOpen(log, id)
  {
  }

  /** The BLE library, seen through the requests made to it. */
  class BleManager {
    ghost var log: seq<RadioEvent>

    constructor()
      ensures log == []
    {
      log := [];
    }

    /** `bleManager.connectToDevice(id)`, which the environment lets succeed or fail. */
    method ConnectToDevice(id: string, succeeds: bool)
      modifies this
      ensures log == old(log) + [ConnectAttempt(id, succeeds)]
    {
      log := log + [ConnectAttempt(id, succeeds)];
    }

    /** `deviceConnection.discoverAllServicesAndCharacteristics()`, which may fail as well. */
    method DiscoverAllServicesAndCharacteristics(id: string, succeeds: bool)
      modifies this
      ensures log == old(log) + [DiscoverAttempt(id, succeeds)]
    {
      log := log + [DiscoverAttempt(id, succeeds)];
    }

    method WriteCharacteristicWithResponseForDevice(w: Write)
      modifies this
      ensures log == old(log) + [WriteRequest(w)]
    {
      log := log + [WriteRequest(w)];
    }

    method CancelDeviceConnection(id: string)
      modifies this
      ensures log == old(log) + [Cancel(id)]
    {
      log := log + [Cancel(id)];
    }
  }

  class BleStore {
    const bleManager: BleManager
    var allDevices: seq<Device>
    var connectedDevice: Option<Device>

    /**
     * The registry has distinct ids, the connected device (if any) has an
     * open link, and no write ever went to a device without one.
     */
    ghost predicate Valid()
      reads this, bleManager
    {
      && UniqueIds(allDevices)
      && (connectedDevice.Some? ==> LinkOpen(bleManager.log, connectedDevice.value.id))
      && WritesOnOpenLinks(bleManager.log)
    }

    constructor()
      ensures Valid() && fresh(bleManager)
      ensures allDevices == [] && connectedDevice == None && bleManager.log == []
    {
      bleManager := new BleManager();
      allDevices := [];
      connectedDevice := None;
    }

    /** `setAllDevices(device)`: append the device unless its id is already registered. */
    method SetAllDevices(device: Device)
      requires Valid()
      modifies this
      ensures Valid()
      ensures allDevices == AddDevice(old(allDevices), device)
      ensures connectedDevice == old(connectedDevice)
    {
      var isDuplicate := FindIndexById(allDevices, device.id) > -1;
      AddDevicePreservesUniqueIds(allDevices, device);
      if !isDuplicate {
        allDevices := allDevices + [device];
      }
    }

    /** The callback `scanForPeripherals` hands to `startDeviceScan`, for one report. */
    method ScanCallback(scanError: bool, device: Option<Device>)
      requires Valid()
      modifies this
      ensures Valid()
      ensures allDevices == ScanStep(old(allDevices), scanError, device)
      ensures connectedDevice == old(connectedDevice)
    {
      if scanError {
        return;
      }
      if device.Some? && Named(device.value) {
        SetAllDevices(device.value);
      }
    }

    /**
     * `disconnectFromDevice`: cancel the connected device's link and forget
     * it; with nothing connected, do nothing at all.
     */
    method DisconnectFromDevice()
      requires Valid()
      modifies this, bleManager
      ensures Valid()
      ensures connectedDevice == None && allDevices == old(allDevices)
      ensures old(connectedDevice).None? ==> bleManager.log == old(bleManager.log)
      ensures old(connectedDevice).Some? ==>
                bleManager.log == old(bleManager.log) + [Cancel(old(connectedDevice).value.id)]
    {
      if connectedDevice.Some? {
        WritesOnOpenLinksExtend(bleManager.log, Cancel(connectedDevice.value.id));
        bleManager.CancelDeviceConnection(connectedDevice.value.id);
        connectedDevice := None;
      }
    }

    /**
     * `connectToDevice(device)`: connect, then discover; the device becomes
     * the connected one only when both succeed, and otherwise the previous
     * connected device (or none) is kept.
     */
    method ConnectToDevice(device: Device, connectSucceeds: bool, discoverSucceeds: bool)
      requires Valid()
      modifies this, bleManager
      ensures Valid()
      ensures allDevices == old(allDevices)
      ensures connectedDevice ==
                if connectSucceeds && discoverSucceeds then Some(device) else old(connectedDevice)
      ensures bleManager.log == old(bleManager.log) + [ConnectAttempt(device.id, connectSucceeds)]
                + (if connectSucceeds then [DiscoverAttempt(device.id, discoverSucceeds)] else [])
    {
      var e := ConnectAttempt(device.id, connectSucceeds);
      WritesOnOpenLinksExtend(bleManager.log, e);
      if connectedDevice.Some? {
        LinkOpenExtend(bleManager.log, e, connectedDevice.value.id);
      }
      bleManager.ConnectToDevice(device.id, connectSucceeds);
      if connectSucceeds {
        var d := DiscoverAttempt(device.id, discoverSucceeds);
        WritesOnOpenLinksExtend(bleManager.log, d);
        LinkOpenExtend(bleManager.log, d, device.id);
        if connectedDevice.Some? {
          LinkOpenExtend(bleManager.log, d, connectedDevice.value.id);
        }
        bleManager.DiscoverAllServicesAndCharacteristics(device.id, discoverSucceeds);
        if discoverSucceeds {
          connectedDevice := Some(device);
        }
      }
    }

    /** Writes `payload` to the connected device, or nothing when there is none. */
    method WriteCommand(payload: string)
      requires Valid()
      modifies bleManager
      ensures Valid()
      ensures old(connectedDevice).None? ==> bleManager.log == old(bleManager.log)
      ensures connectedDevice.Some? ==>
                bleManager.log == old(bleManager.log) + [WriteRequest(CommandWrite(connectedDevice.value.id, payload))]
    {
      if connectedDevice.None? {
        return;
      }
      var w := CommandWrite(connectedDevice.value.id, payload);
      WritesOnOpenLinksExtend(bleManager.log, WriteRequest(w));
      LinkOpenExtend(bleManager.log, WriteRequest(w), connectedDevice.value.id);
      bleManager.WriteCharacteristicWithResponseForDevice(w);
    }

    /** `stopData`: one write of "0" to the connected device, or none when nothing is connected. */
    method StopData()
      requires Valid()
      modifies bleManager
      ensures Valid()
      ensures old(connectedDevice).None? ==> bleManager.log == old(bleManager.log)
      ensures connectedDevice.Some? ==>
                bleManager.log == old(bleManager.log) + [WriteRequest(CommandWrite(connectedDevice.value.id, StopPayload))]
    {
      WriteCommand(StopPayload);
    }

    /** `sendDataToDevice(c)`: one write of the start payload, or none when nothing is connected. */
    method SendDataToDevice(c: SessionCommand)
      requires Valid()
      modifies bleManager
      ensures Valid()
      ensures old(connectedDevice).None? ==> bleManager.log == old(bleManager.log)
      ensures connectedDevice.Some? ==>
                bleManager.log == old(bleManager.log) + [WriteRequest(CommandWrite(connectedDevice.value.id, StartPayload(c)))]
    {
      WriteCommand(StartPayload(c));
    }
  }
}
