/**
 * The application's SharedPreferences, reduced to what the client uses: named
 * preference files holding string values. Both the connect client and the
 * referral receiver read and write the same store.
 */
module Preferences {
  import opened Wrappers

  /** A key inside a named preference file. */
  datatype PrefKey = PrefKey(file: string, key: string)

  /** `getSharedPreferences(file, 0).getString(key, null)` on a snapshot of the store. */
  function Lookup(entries: map<PrefKey, string>, file: string, key: string): Option<string>
  {
    if PrefKey(file, key) in entries then Some(entries[PrefKey(file, key)]) else None
  }

  class PreferenceStore {
    var entries: map<PrefKey, string>

    constructor (initial: map<PrefKey, string>)
      ensures entries == initial
    {
      entries := initial;
    }

    function GetString(file: string, key: string): Option<string>
      reads this
    {
      Lookup(entries, file, key)
    }

    /** `edit().putString(key, value)` followed by `commit()`. */
    method PutString(file: string, key: string, value: string)
      modifies this
      ensures entries == old(entries)[PrefKey(file, key) := value]
    {
      entries := entries[PrefKey(file, key) := value];
    }
  }
}
