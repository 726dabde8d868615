/**
 * The persisted sound switch (script.js:39-60, 136-151): the flag is read from
 * storage key `pp_sounds_enabled` as "anything but `'false'`", written back as
 * `'true'` or `'false'`, and flipped by the toggle button.  Storage is a value
 * `stored` (`None` for a missing key) and a parameter telling whether a write
 * succeeds; a write that throws is ignored, as in the source.
 */
module SoundSetting {
  import opened Wrappers

  /** `localStorage.getItem('pp_sounds_enabled') !== 'false'`; a missing key reads as `null`. */
  function ReadEnabled(stored: Option<string>): (enabled: bool)
    ensures stored.None? ==> enabled
    ensures forall b :: stored == Some(EncodeEnabled(b)) ==> enabled == b
    ensures !enabled <==> stored == Some("false")
  {
    stored != Some("false")
  }

  /** `soundEnabled ? 'true' : 'false'`. */
  function EncodeEnabled(enabled: bool): (s: string)
    ensures s == "true" || s == "false"
  {
    if enabled then "true" else "false"
  }

  /** What is written reads back as the same flag. */
  lemma ReadEncoded(enabled: bool)
    ensures ReadEnabled(Some(EncodeEnabled(enabled))) == enabled
  {}

  /** The two encodings differ, so the stored text determines the flag it was written for. */
  lemma EncodeInjective(a: bool, b: bool)
    requires EncodeEnabled(a) == EncodeEnabled(b)
    ensures a == b
  {
    assert EncodeEnabled(true)[0] != EncodeEnabled(false)[0];
  }

  /** `playSound` is silent while sound is off; the toggle sound plays regardless. */
  function Audible(enabled: bool, isToggleSound: bool): (a: bool)
    ensures isToggleSound ==> a
    ensures !isToggleSound ==> (a <==> enabled)
  {
    isToggleSound || enabled
  }

  /** After a reload, a setting that was written back decides which sounds play: the toggle sound always, the rest only if sound was on. */
  lemma AudibleAfterReload(enabled: bool, isToggleSound: bool)
    ensures Audible(ReadEnabled(Some(EncodeEnabled(enabled))), isToggleSound) <==> isToggleSound || enabled
  {
    ReadEncoded(enabled);
  }

  class SoundSettings {
    var enabled: bool
    var stored: Option<string>

    /** Persisted copy agrees with the flag whenever the last write succeeded. */
    ghost predicate Persisted()
      reads this
    {
      ReadEnabled(stored) == enabled
    }

    /** Page load: the flag is what storage holds. */
    constructor (stored: Option<string>)
      ensures this.stored == stored && enabled == ReadEnabled(stored)
      ensures Persisted()
    {
      this.stored := stored;
      enabled := ReadEnabled(stored);
    }

    /** `setSoundEnabled(enabled)`: sets the flag and writes it back if storage accepts the write. */
    method SetEnabled(value: bool, storageWritable: bool)
      modifies this
      ensures enabled == value
      ensures stored == if storageWritable then Some(EncodeEnabled(value)) else old(stored)
      ensures storageWritable ==> Persisted()
    {
      enabled := value;
      if storageWritable {
        stored := Some(EncodeEnabled(enabled));
        ReadEncoded(enabled);
      }
    }

    /** The toggle button: `setSoundEnabled(!soundEnabled)`. */
    method Toggle(storageWritable: bool)
      modifies this
      ensures enabled == !old(enabled)
      ensures stored == if storageWritable then Some(EncodeEnabled(enabled)) else old(stored)
      ensures storageWritable ==> Persisted()
    {
      SetEnabled(!enabled, storageWritable);
    }
  }
}
