# Nap lamp client state, in Dafny

A model of the client-side state of the nap-lamp mobile app. It has two
stores.

- The BLE store (`hooks/useBle.ts`) holds the registry of discovered
  devices (`allDevices`) and the connected device (`connectedDevice`).
  It filters scan reports, connects and disconnects, and writes the
  start and stop commands to the lamp's control characteristic.
- The nap configuration store (`stores/sleepStore.ts`) holds four string
  fields with fixed defaults, one setter each.

Files:

- `wrappers.dfy`: `Option`.
- `decimal.dfy` (module `Decimal`): how a template literal renders an
  integral number below 10^21 in magnitude, plus a parser that undoes it
  for non-negative numbers.
- `ble_devices.dfy` (`BleDevices`): the registry and its duplicate check
  as functions on sequences, the scan-report filter, and lemmas about any
  sequence of adds or scan reports.
- `ble_permissions.dfy` (`BlePermissions`): the permission decision. The
  platform, the API level and the dialog answers are its inputs.
- `ble_command.dfy` (`BleCommand`): the service and characteristic UUIDs,
  the stop payload `"0"`, and the start payload template. A parser reads
  a start payload back, so for non-negative durations the template
  provably loses no field.
- `ble_store.dfy` (`BleStore`): two classes.
  - `BleManager` stands for the BLE library. It keeps a ghost log of
    every connect, discover, write and cancel request made to it.
  - `BleStore` holds the store's fields. It has one method for each of
    `setAllDevices`, `connectToDevice`, `disconnectFromDevice`, `stopData`
    and `sendDataToDevice`, and one for the scan callback that
    `scanForPeripherals` installs. It also has `WriteCommand`, which is
    the guarded write block that `stopData` and `sendDataToDevice` share.
    `requestPermissions` is the function `RequestPermissions` in
    `BlePermissions`, because it reads no store state.
  - The invariant `Valid()` of `BleStore` says three things: the
    registry's ids are distinct, the connected device has an open link
    (discovered and not cancelled since), and every write in the log went
    to a device whose link was open at that moment.
- `sleep_store.dfy` (`SleepStore`): the `SleepStore` class, plus the
  value `SleepSettings` that its setters are specified against.

The outcome of a connect or a discovery belongs to the environment. It
is passed in as a boolean. The base64 step (`btoa`) is modelled as the
constructor `Base64(text)`, which is injective, as base64 (section 4 of
RFC 4648) is.

Behaviour of the code that the model keeps on purpose:

- `sleepStore` checks nothing. The rule that the two light durations fit
  within the nap duration is not enforced by the store, so the model has
  no such rule.
- A failed discovery does not cancel the transport link it just opened.
  The model records the connect attempt and leaves `connectedDevice` as
  it was, with no cancel.
- A duration that is a negative integer is rendered with a leading `-`.
  So the start payload is a clean round trip only for non-negative
  durations.
- Connecting while a device is already connected is not guarded. The new
  device replaces the old one, and the old link is never cancelled.

## Model

| member | source | states |
|---|---|---|
| BleDevices.FindIndexById | hooks/useBle.ts:70-71 | `findIndex` by id: -1 exactly when no entry has the id, otherwise the first entry carrying it |
| BleDevices.IsDuplicate | hooks/useBle.ts:70-71 | `isDuplicteDevice` holds exactly when some entry already carries the device's id |
| BleDevices.AddDevice | hooks/useBle.ts:69-76 | `setAllDevices` on values: existing entries keep their places; the registry grows by one, the new device at the end, exactly when its id is new |
| BleDevices.AddDeviceEffect | hooks/useBle.ts:69-76 | a device with a new id is appended after every existing entry; a device whose id is present leaves the registry unchanged; afterwards the id is registered |
| BleDevices.AddDevicePreservesUniqueIds | hooks/useBle.ts:69-76 | one add keeps all registry ids distinct |
| BleDevices.AddDeviceIdempotent | hooks/useBle.ts:70-75 | adding the same device twice equals adding it once |
| BleDevices.AddAllPreservesUniqueIds | hooks/useBle.ts:69-76 | for any sequence of adds, the ids stay distinct |
| BleDevices.AddAllKeepsPrefix | hooks/useBle.ts:74 | later adds never move, replace or remove earlier entries; the registry grows by at most one entry per add |
| BleDevices.AddAllContainsEveryId | hooks/useBle.ts:69-76 | every id that was present or was added ends up in the registry |
| BleDevices.AddAllOnlyFromInputs | hooks/useBle.ts:69-76 | every registry entry was present before or was one of the added devices |
| BleDevices.ScanAdmits | hooks/useBle.ts:172-176 | a scan report is refused when `error` is set, the device is null, or its name is null or empty, and admitted otherwise |
| BleDevices.ScanStep | hooks/useBle.ts:171-178 | a report with an error, no device, or a null or empty name leaves the registry unchanged; any other report acts exactly like `setAllDevices(device)` |
| BleDevices.ScanAllKeepsRegistryNamedAndUnique | hooks/useBle.ts:171-178 | whatever the radio reports, a registry of named devices with distinct ids stays that way |
| BleStore.BleStore.constructor | hooks/useBle.ts:64-67 | the store starts with an empty registry, no connected device and no requests made |
| BleStore.BleStore.SetAllDevices | hooks/useBle.ts:69-76 | the registry becomes `AddDevice(old registry, device)`; the connected device is untouched; the invariant is kept |
| BleStore.BleStore.ScanCallback | hooks/useBle.ts:171-178 | the registry becomes `ScanStep` of the old one; nothing else changes |
| BleStore.BleStore.DisconnectFromDevice | hooks/useBle.ts:78-84 | with a connected device: exactly one cancel of its id is logged and `connectedDevice` becomes null; with none: no request and no change |
| BleStore.BleStore.ConnectToDevice | hooks/useBle.ts:86-96 | the device becomes connected exactly when both connect and discovery succeed, otherwise the previous value stays; discovery is attempted only after a successful connect; the registry is untouched |
| BleStore.BleStore.WriteCommand | hooks/useBle.ts:106-116 | with a connected device, one write of the encoded payload to the fixed service and characteristic of that device's id; without one, no request |
| BleStore.BleStore.StopData | hooks/useBle.ts:98-117 | no write when nothing is connected; otherwise exactly one write of `Base64("0")` to service `8c6332b8-…3330`, characteristic `3a7f4056-…bd47`, of the connected id; store fields unchanged |
| BleStore.BleStore.SendDataToDevice | hooks/useBle.ts:119-145 | no write when nothing is connected; otherwise exactly one write of the encoded start payload to the same service and characteristic; store fields unchanged |
| BleStore.CommandWrite | hooks/useBle.ts:107-112 | a command write goes to the given device id, service `8c6332b8-bf32-4220-ad31-0d8c19003330`, characteristic `3a7f4056-0b5b-40be-99ba-fbe21644bd47`, with value `btoa(payload)`; lines 135-140 use the same request |
| BleStore.BleManager.CancelDeviceConnection | hooks/useBle.ts:81 | one cancel request for the id is appended to the library's log |
| BleStore.BleManager.ConnectToDevice | hooks/useBle.ts:89 | one connect attempt for the id, with the outcome the environment chose, is appended to the log |
| BleStore.BleManager.DiscoverAllServicesAndCharacteristics | hooks/useBle.ts:90 | one discovery attempt for the id, with its outcome, is appended to the log |
| BleStore.BleManager.WriteCharacteristicWithResponseForDevice | hooks/useBle.ts:107-112 | one write request (device id, service, characteristic, encoded value) is appended to the log; lines 135-140 make the same call |
| BleStore.WritesOnOpenLinksExtend | hooks/useBle.ts:100-103 | a new request keeps the "writes only on open links" history valid, provided that a write goes to an open link |
| BleStore.LinkOpenIffOpenedAndNotCancelled | hooks/useBle.ts:78-96 | the recursive open-link test agrees with its direct reading: some successful discovery of the id (line 90) that no later cancel of it (line 81) follows |
| BleCommand.StartPayload | hooks/useBle.ts:130 | the start payload `method-nap-breathing-wakeup` can be read back to the command, for non-negative durations, even when the method itself contains `-` |
| BleCommand.StartPayloadInjective | hooks/useBle.ts:130 | distinct commands with non-negative durations give distinct start payloads |
| BleCommand.StartPayloadIsNotStop | hooks/useBle.ts:104 | no start payload equals the stop payload `"0"`, and `"0"` does not parse as a start payload |
| BleCommand.StartPayloadExample | hooks/useBle.ts:130 | `("4-7-8", 3, 5, 1)` gives `"4-7-8-3-5-1"` |
| Decimal.DecimalOfNat | hooks/useBle.ts:130 | a number is rendered as a non-empty string of digits with no leading zero; a single digit exactly below 10 |
| Decimal.DecimalOfInt | hooks/useBle.ts:130 | the rendering is canonical: non-empty, no leading zero (only 0 itself starts with `0`); a non-negative integer renders as digits that read back to it; a negative one as `-` followed by a non-zero digit and digits that read back to its magnitude |
| Decimal.ParseDecimalOfNat | hooks/useBle.ts:130 | reading the rendering of a natural number gives the number back |
| Decimal.DecimalOfNatInjective | hooks/useBle.ts:130 | distinct numbers render differently |
| BlePermissions.AndroidPermissionsGranted | hooks/useBle.ts:56-60 | `requestAndroidPermissions` is true exactly when scan, connect and fine location are all granted |
| BlePermissions.RequestPermissions | hooks/useBle.ts:147-167 | `requestPermissions` is true exactly when every dialog it shows on that platform is granted (none off Android; fine location below API 31; scan, connect and fine location from 31) |
| BlePermissions.ApiLevelOrDefault | hooks/useBle.ts:149 | the reported API level when there is one; otherwise -1, which is below 31 |
| BlePermissions.RequestPermissionsCases | hooks/useBle.ts:147-167 | true off Android; on Android with no level (taken as -1) or a level below 31, iff fine location is granted; otherwise iff all three are granted |
| BlePermissions.AndroidAllowedNeedsFineLocation | hooks/useBle.ts:148-163 | a positive answer on Android always means fine location was granted |
| SleepStore.SleepStore.constructor | stores/sleepStore.ts:14-18 | initial state `napDuration = "15"`, `breathingMethod = "4-7-8"`, `breathingLightDuration = "5"`, `wakeUpLightDuration = "1"` |
| SleepStore.SleepStore.SetNapDuration | stores/sleepStore.ts:19 | sets `napDuration` to any given string; the other three fields are unchanged |
| SleepStore.SleepStore.SetBreathingMethod | stores/sleepStore.ts:20 | sets `breathingMethod`; the other three fields are unchanged |
| SleepStore.SleepStore.SetBreathingLightDuration | stores/sleepStore.ts:21 | sets `breathingLightDuration`; the other three fields are unchanged |
| SleepStore.SleepStore.SetWakeUpLightDuration | stores/sleepStore.ts:22 | sets `wakeUpLightDuration`; the other three fields are unchanged |
| SleepStore.UpdatesTouchOneField | stores/sleepStore.ts:19-22 | each update replaces exactly its own field |
| SleepStore.UpdatesIdempotent | stores/sleepStore.ts:19-22 | applying a setter twice with the same argument equals applying it once |
| SleepStore.UpdatesOfDistinctFieldsCommute | stores/sleepStore.ts:19-22 | setters of different fields can be applied in either order |

## Left out

- BLE radio I/O (scanning, connecting, discovery, writes, cancellation) is not modelled as behaviour. `BleManager` only records each request and, for connect and discovery, the outcome it is given.
- Write failures are not modelled. The source catches and logs them, and the store's state does not depend on them. The log records the write request either way.
- `scanForPeripherals`: starting the scan and the 10-second `setTimeout` that stops it depend on timers and the radio, and are left out. The callback it installs is modelled as `ScanCallback`, and a run of reports as `ScanAll`.
- `connectToDevice` stores the `Device` object the library returns. The model stores the device it was asked to connect, which has the same id.
- The permission dialogs are not modelled. Their answers are inputs to the decision.
- The async `await`s are treated as atomic. Interleavings, such as a disconnect arriving before discovery finishes, are not modelled.
- `btoa` is modelled as an injective constructor, not computed. Its failure on characters above code point 255 is not modelled.
- Decimal.DecimalOfNat: renders every number as plain digits. JavaScript writes an integral number of 10^21 or more in exponent form (`${1e21}` is `"1e+21"`), and cannot hold integers above 2^53 exactly. So for such durations the payload `sendDataToDevice` writes differs from `StartPayload`; this case is not modelled.
- `SendDataToDevice`: durations are integers. A JavaScript number that is fractional, NaN or infinite (for example `Number("abc")`) renders differently, and that case is not modelled.
- Logging, and the machinery of `zustand`'s `create`, `set` and `get`, are left out.
- The nap-length validation rule and the countdown timer live in the screens, not in these stores, and are not modelled.
- The layout, navigation and styling files are presentation only and are not modelled.
