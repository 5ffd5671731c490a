/**
 * The nap configuration store of stores/sleepStore.ts: four string fields
 * with fixed defaults, each overwritten by its own setter without any
 * validation.
 */
module SleepStore {

  const DefaultNapDuration: string := "15"
  const DefaultBreathingMethod: string := "4-7-8"
  const DefaultBreathingLightDuration: string := "5"
  const DefaultWakeUpLightDuration: string := "1"

  /** The four fields of the store as one value. */
  datatype SleepSettings = SleepSettings(
    napDuration: string,
    breathingMethod: string,
    breathingLightDuration: string,
    wakeUpLightDuration: string)
  {
    function WithNapDuration(d: string): SleepSettings {
      this.(napDuration := d)
    }
    function WithBreathingMethod(m: string): SleepSettings {
      this.(breathingMethod := m)
    }
    function WithBreathingLightDuration(t: string): SleepSettings {
      this.(breathingLightDuration := t)
    }
    function WithWakeUpLightDuration(d: string): SleepSettings {
      this.(wakeUpLightDuration := d)
    }
  }

  const DefaultSettings: SleepSettings :=
    SleepSettings(DefaultNapDuration, DefaultBreathingMethod, DefaultBreathingLightDuration, DefaultWakeUpLightDuration)

  /** Each update changes its own field to the new value and leaves the other three alone. */
  lemma UpdatesTouchOneField(s: SleepSettings, v: string)
    ensures s.WithNapDuration(v) == SleepSettings(v, s.breathingMethod, s.breathingLightDuration, s.wakeUpLightDuration)
    ensures s.WithBreathingMethod(v) == SleepSettings(s.napDuration, v, s.breathingLightDuration, s.wakeUpLightDuration)
    ensures s.WithBreathingLightDuration(v) == SleepSettings(s.napDuration, s.breathingMethod, v, s.wakeUpLightDuration)
    ensures s.WithWakeUpLightDuration(v) == SleepSettings(s.napDuration, s.breathingMethod, s.breathingLightDuration, v)
  {
  }

  /** Setting a field twice to the same value is the same as setting it once. */
  lemma UpdatesIdempotent(s: SleepSettings, v: string)
    ensures s.WithNapDuration(v).WithNapDuration(v) == s.WithNapDuration(v)
    ensures s.WithBreathingMethod(v).WithBreathingMethod(v) == s.WithBreathingMethod(v)
    ensures s.WithBreathingLightDuration(v).WithBreathingLightDuration(v) == s.WithBreathingLightDuration(v)
    ensures s.WithWakeUpLightDuration(v).WithWakeUpLightDuration(v) == s.WithWakeUpLightDuration(v)
  {
  }

  /** Updates of different fields do not interfere, so their order does not matter. */
  lemma UpdatesOfDistinctFieldsCommute(s: SleepSettings, a: string, b: string)
    ensures s.WithNapDuration(a).WithBreathingMethod(b) == s.WithBreathingMethod(b).WithNapDuration(a)
    ensures s.WithNapDuration(a).WithBreathingLightDuration(b) == s.WithBreathingLightDuration(b).WithNapDuration(a)
    ensures s.WithNapDuration(a).WithWakeUpLightDuration(b) == s.WithWakeUpLightDuration(b).WithNapDuration(a)
    ensures s.WithBreathingMethod(a).WithBreathingLightDuration(b)
         == s.WithBreathingLightDuration(b).WithBreathingMethod(a)
    ensures s.WithBreathingMethod(a).WithWakeUpLightDuration(b)
         == s.WithWakeUpLightDuration(b).WithBreathingMethod(a)
    ensures s.WithBreathingLightDuration(a).WithWakeUpLightDuration(b)
         == s.WithWakeUpLightDuration(b).WithBreathingLightDuration(a)
  {
  }

  class SleepStore {
    var napDuration: string
    var breathingMethod: string
    var breathingLightDuration: string
    var wakeUpLightDuration: string

    function Settings(): SleepSettings
      reads this
    {
      SleepSettings(napDuration, breathingMethod, breathingLightDuration, wakeUpLightDuration)
    }

    /** The initial state: 15 minutes of nap, the 4-7-8 method, 5 and 1 minutes of light. */
    constructor()
      ensures napDuration == "15" && breathingMethod == "4-7-8"
      ensures breathingLightDuration == "5" && wakeUpLightDuration == "1"
      ensures Settings() == DefaultSettings
    {
      napDuration := DefaultNapDuration;
      breathingMethod := DefaultBreathingMethod;
      breathingLightDuration := DefaultBreathingLightDuration;
      wakeUpLightDuration := DefaultWakeUpLightDuration;
    }

    method SetNapDuration(duration: string)
      modifies this
      ensures napDuration == duration
      ensures breathingMethod == old(breathingMethod) && breathingLightDuration == old(breathingLightDuration)
      ensures wakeUpLightDuration == old(wakeUpLightDuration)
      ensures Settings() == old(Settings()).WithNapDuration(duration)
    {
      napDuration := duration;
    }

    method SetBreathingMethod(breathing: string)
      modifies this
      ensures breathingMethod == breathing
      ensures napDuration == old(napDuration) && breathingLightDuration == old(breathingLightDuration)
      ensures wakeUpLightDuration == old(wakeUpLightDuration)
      ensures Settings() == old(Settings()).WithBreathingMethod(breathing)
    {
      breathingMethod := breathing;
    }

    method SetBreathingLightDuration(time: string)
      modifies this
      ensures breathingLightDuration == time
      ensures napDuration == old(napDuration) && breathingMethod == old(breathingMethod)
      ensures wakeUpLightDuration == old(wakeUpLightDuration)
      ensures Settings() == old(Settings()).WithBreathingLightDuration(time)
    {
      breathingLightDuration := time;
    }

    method SetWakeUpLightDuration(duration: string)
      modifies this
      ensures wakeUpLightDuration == duration
      ensures napDuration == old(napDuration) && breathingMethod == old(breathingMethod)
      ensures breathingLightDuration == old(breathingLightDuration)
      ensures Settings() == old(Settings()).WithWakeUpLightDuration(duration)
    {
      wakeUpLightDuration := duration;
    }
  }
}
