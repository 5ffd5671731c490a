/**
 * The permission decision of the BLE store (hooks/useBle.ts,
 * `requestPermissions` and `requestAndroidPermissions`). The dialogs are
 * outside the model: their answers are the inputs.
 */
module BlePermissions {
  import opened Wrappers

  /** `Platform.OS`. */
  datatype Os = Android | Ios | Windows | MacOs | Web

  /** What `PermissionsAndroid.request` resolves to. */
  datatype PermissionStatus = Granted | Denied | NeverAskAgain

  datatype Permission = BluetoothScan | BluetoothConnect | AccessFineLocation

  /** The user's answers to the dialogs, one per permission. */
  datatype Answers = Answers(scan: PermissionStatus, connect: PermissionStatus, fineLocation: PermissionStatus)

  function AnswerFor(a: Answers, p: Permission): PermissionStatus {
    match p
    case BluetoothScan => a.scan
    case BluetoothConnect => a.connect
    case AccessFineLocation => a.fineLocation
  }

  /** First API level whose Bluetooth permissions are split into scan and connect. */
  const SplitPermissionsApiLevel: int := 31

  /** `ExpoDevice.platformApiLevel ?? -1`: a missing level reads as -1, older than any split level. */
  function ApiLevelOrDefault(apiLevel: Option<int>): (r: int)
    ensures apiLevel.Some? ==> r == apiLevel.value
    ensures apiLevel.None? ==> r == -1 && r < SplitPermissionsApiLevel
  {
    match apiLevel
    case Some(level) => level
    case None => -1
  }

  /** Every permission's answer is one of the three answers. */
  lemma AnswerForIsOneOfThree(a: Answers)
    ensures forall p: Permission :: AnswerFor(a, p) in {a.scan, a.connect, a.fineLocation}
  {
  }

  /** `requestAndroidPermissions`: true exactly when no permission is refused. */
  function AndroidPermissionsGranted(a: Answers): (r: bool)
    ensures r <==> forall p: Permission :: AnswerFor(a, p) == Granted
  {
    AnswerForIsOneOfThree(a);
    assert AnswerFor(a, BluetoothScan) == a.scan && AnswerFor(a, BluetoothConnect) == a.connect;
    assert AnswerFor(a, AccessFineLocation) == a.fineLocation;
    a.scan == Granted && a.connect == Granted && a.fineLocation == Granted
  }

  /** The dialogs `requestPermissions` shows, in order, on a platform. */
  function RequestedPermissions(os: Os, apiLevel: Option<int>): seq<Permission> {
    if os != Android then []
    else if ApiLevelOrDefault(apiLevel) < SplitPermissionsApiLevel then [AccessFineLocation]
    else [BluetoothScan, BluetoothConnect, AccessFineLocation]
  }

  /**
   * The boolean `requestPermissions` resolves to: true exactly when every
   * dialog that is shown is granted.
   */
  function RequestPermissions(os: Os, apiLevel: Option<int>, a: Answers): (r: bool)
    ensures r <==> forall k :: 0 <= k < |RequestedPermissions(os, apiLevel)| ==>
                      AnswerFor(a, RequestedPermissions(os, apiLevel)[k]) == Granted
  {
    var ps := RequestedPermissions(os, apiLevel);
    if os == Android then
      if ApiLevelOrDefault(apiLevel) < SplitPermissionsApiLevel then
        assert AnswerFor(a, ps[0]) == a.fineLocation;
        a.fineLocation == Granted
      else
        assert AnswerFor(a, ps[0]) == a.scan && AnswerFor(a, ps[1]) == a.connect;
        assert AnswerFor(a, ps[2]) == a.fineLocation;
        AndroidPermissionsGranted(a)
    else true
  }

  /**
   * The three cases: any platform other than Android is allowed; Android
   * below API level 31, or with no level reported, needs fine location;
   * later Android needs scan, connect and fine location.
   */
  lemma RequestPermissionsCases(os: Os, apiLevel: Option<int>, a: Answers)
    ensures os != Android ==> RequestPermissions(os, apiLevel, a)
    ensures os == Android && apiLevel.None? ==>
              (RequestPermissions(os, apiLevel, a) <==> a.fineLocation == Granted)
    ensures os == Android && apiLevel.Some? && apiLevel.value < 31 ==>
              (RequestPermissions(os, apiLevel, a) <==> a.fineLocation == Granted)
    ensures os == Android && apiLevel.Some? && apiLevel.value >= 31 ==>
              (RequestPermissions(os, apiLevel, a) <==>
                 a.scan == Granted && a.connect == Granted && a.fineLocation == Granted)
  {
  }

  /** On Android, a positive decision always implies fine location was granted. */
  lemma AndroidAllowedNeedsFineLocation(apiLevel: Option<int>, a: Answers)
    requires RequestPermissions(Android, apiLevel, a)
    ensures a.fineLocation == Granted
  {
  }
}
