/**
 * The commands the BLE store writes to the lamp (hooks/useBle.ts,
 * `stopData` and `sendDataToDevice`): the fixed service and characteristic,
 * the stop payload, and the start payload template.
 */
module BleCommand {
  import opened Wrappers
  import opened Decimal

  const ServiceUuid: string := "8c6332b8-bf32-4220-ad31-0d8c19003330"
  const CharacteristicUuid: string := "3a7f4056-0b5b-40be-99ba-fbe21644bd47"

  /** The payload of `stopData`. */
  const StopPayload: string := "0"

  /** The argument of `sendDataToDevice`; durations are integral numbers of minutes. */
  datatype SessionCommand = SessionCommand(
    breathingMethod: string,
    napDuration: int,
    breathingDuration: int,
    wakingUpLightDuration: int)

  /**
   * The value of `btoa(text)`. Base64 is injective, and that is all the
   * model relies on; a constructor is injective by construction.
   */
  datatype Encoded = Base64(text: string)

  /** Position of the last '-' of `s`, if any. */
  function LastDash(s: string): (r: Option<nat>)
    ensures r.None? ==> '-' !in s
    ensures r.Some? ==> r.value < |s| && s[r.value] == '-' && '-' !in s[r.value + 1..]
  {
    if s == [] then None
    else if s[|s| - 1] == '-' then Some(|s| - 1)
    else
      var r := LastDash(s[..|s| - 1]);
      assert s == s[..|s| - 1] + [s[|s| - 1]];
      if r.Some? then
        assert s[r.value + 1..] == s[..|s| - 1][r.value + 1..] + [s[|s| - 1]];
        r
      else r
  }

  lemma LastDashOfJoin(head: string, tail: string)
    requires '-' !in tail
    ensures LastDash(head + "-" + tail) == Some(|head|)
  {
    var s := head + "-" + tail;
    var r := LastDash(s);
    assert s[|head|] == '-';
  }

  /** Splits `s` at its last '-' into the text before and a non-empty field of digits after. */
  function SplitLastField(s: string): Option<(string, nat)> {
    var i := LastDash(s);
    if i.None? then None
    else
      var field := s[i.value + 1..];
      if field != [] && AllDigits(field) then Some((s[..i.value], ParseNat(field))) else None
  }

  lemma SplitLastFieldOfJoin(head: string, n: nat)
    ensures SplitLastField(head + "-" + DecimalOfNat(n)) == Some((head, n))
  {
    var s := head + "-" + DecimalOfNat(n);
    LastDashOfJoin(head, DecimalOfNat(n));
    assert s[|head| + 1..] == DecimalOfNat(n);
    assert s[..|head|] == head;
    ParseDecimalOfNat(n);
  }

  /**
   * What a device can read back from a start payload: the three durations
   * are the last three '-'-separated fields, and the breathing method, which
   * may itself contain '-', is everything before them.
   */
  function ParseStartPayload(s: string): Option<SessionCommand> {
    var w := SplitLastField(s);
    if w.None? then None
    else
      var b := SplitLastField(w.value.0);
      if b.None? then None
      else
        var n := SplitLastField(b.value.0);
        if n.None? then None
        else Some(SessionCommand(n.value.0, n.value.1, b.value.1, w.value.1))
  }

  /**
   * `${breathingMethod}-${napDuration}-${breathingDuration}-${wakingUpLightDuration}`.
   * With non-negative durations, every field of the command can be read back,
   * even when the breathing method itself contains '-'.
   */
  function StartPayload(c: SessionCommand): (r: string)
    ensures c.napDuration >= 0 && c.breathingDuration >= 0 && c.wakingUpLightDuration >= 0 ==>
              ParseStartPayload(r) == Some(c)
  {
    var m := c.breathingMethod;
    var r := m + "-" + DecimalOfInt(c.napDuration) + "-" + DecimalOfInt(c.breathingDuration)
      + "-" + DecimalOfInt(c.wakingUpLightDuration);
    if c.napDuration >= 0 && c.breathingDuration >= 0 && c.wakingUpLightDuration >= 0 then
      var n, b := DecimalOfNat(c.napDuration), DecimalOfNat(c.breathingDuration);
      SplitLastFieldOfJoin(m + "-" + n + "-" + b, c.wakingUpLightDuration);
      SplitLastFieldOfJoin(m + "-" + n, c.breathingDuration);
      SplitLastFieldOfJoin(m, c.napDuration);
      r
    else r
  }

  /** Different session commands (with non-negative durations) give different start payloads. */
  lemma StartPayloadInjective(c: SessionCommand, d: SessionCommand)
    requires c.napDuration >= 0 && c.breathingDuration >= 0 && c.wakingUpLightDuration >= 0
    requires d.napDuration >= 0 && d.breathingDuration >= 0 && d.wakingUpLightDuration >= 0
    requires StartPayload(c) == StartPayload(d)
    ensures c == d
  {
  }

  /** No start payload can be mistaken for the stop payload. */
  lemma StartPayloadIsNotStop(c: SessionCommand)
    ensures StartPayload(c) != StopPayload
    ensures ParseStartPayload(StopPayload).None?
  {
  }

  /** The 3-minute 4-7-8 session with 5 and 1 minutes of light. */
  lemma StartPayloadExample()
    ensures StartPayload(SessionCommand("4-7-8", 3, 5, 1)) == "4-7-8-3-5-1"
  {
  }
}
