/**
 * Device-id resolution (TapjoyConnect.initMetaData): a manifest DEVICE_ID wins;
 * otherwise the telephony device id is lowercased, and a value that parses to
 * the integer 0 marks an emulator, which gets a stored or freshly generated
 * "emulator..." id. Math.random() is replaced by a sequence of draws, each the
 * value of `(int)(Math.random() * 100)`.
 */
module DeviceIdentity {
  import opened Wrappers
  import opened JavaStrings

  /** The character table the generator indexes into (33 characters). */
  const ConstantChars: string := "1234567890abcdefghijklmnopqrstuvw"
  /** Every draw is reduced modulo 30, so only ConstantChars[..30] can be picked. */
  const DrawModulus: nat := 30
  const EmulatorPrefix: string := "EMULATOR"
  const RandomCharCount: nat := 32

  /** At least 32 draws, each in [0, 100) like `(int)(Math.random() * 100)`. */
  predicate ValidDraws(draws: seq<int>)
  {
    |draws| >= RandomCharCount && forall i :: 0 <= i < |draws| ==> 0 <= draws[i] < 100
  }

  /** What the telephony service reports. */
  datatype Telephony =
    | NoTelephonyManager                       // getSystemService returned null
    | TelephonyManager(deviceId: Option<string>) // getDeviceId(), which may be null

  /** The outcome of resolution: the `deviceID` field and the value written under emulatorDeviceId, if any. */
  datatype Resolution = Resolution(deviceID: Option<string>, persisted: Option<string>)

  /** An exception escaping initMetaData, or its normal completion. */
  datatype Completion<T> = Completed(value: T) | NullPointerThrown

  // ---------------------------------------------------------------------------
  // The emulator id

  function DrawnChars(draws: seq<int>): string
    requires ValidDraws(draws)
  {
    seq(RandomCharCount, i requires 0 <= i < RandomCharCount => ConstantChars[draws[i] % DrawModulus])
  }

  /** `("EMULATOR" + 32 drawn characters).toLowerCase()`. */
  function EmulatorId(draws: seq<int>): string
    requires ValidDraws(draws)
  {
    ToLowerCase(EmulatorPrefix + DrawnChars(draws))
  }

  /** "emulator" followed by 32 characters from the first 30 of the table, 40 in all. */
  predicate IsEmulatorId(id: string)
  {
    |id| == 8 + RandomCharCount && id[..8] == "emulator" &&
    forall i :: 8 <= i < |id| ==> id[i] in ConstantChars[..DrawModulus]
  }

  lemma ConstantCharsLower()
    ensures HasNoUpper(ConstantChars)
  {
  }

  lemma LoweredPrefix()
    ensures ToLowerCase(EmulatorPrefix) == "emulator"
  {
  }

  lemma EmulatorIdShape(draws: seq<int>)
    requires ValidDraws(draws)
    ensures IsEmulatorId(EmulatorId(draws))
  {
    var chars := DrawnChars(draws);
    ToLowerCaseAppend(EmulatorPrefix, chars);
    LoweredPrefix();
    ConstantCharsLower();
    assert HasNoUpper(chars) by {
      forall i | 0 <= i < |chars| ensures !('A' <= chars[i] <= 'Z') {
        assert chars[i] == ConstantChars[draws[i] % DrawModulus];
      }
    }
    ToLowerCaseKeepsLower(chars);
    var id := EmulatorId(draws);
    assert id == "emulator" + chars;
    forall i | 8 <= i < |id| ensures id[i] in ConstantChars[..DrawModulus] {
      assert id[i] == chars[i - 8] == ConstantChars[..DrawModulus][draws[i - 8] % DrawModulus];
    }
  }

  /** The StringBuffer loop of initMetaData: "EMULATOR", 32 drawn characters, then toLowerCase(). */
  method GenerateEmulatorId(draws: seq<int>) returns (id: string)
    requires ValidDraws(draws)
    ensures id == EmulatorId(draws)
  {
    var buff := EmulatorPrefix;
    for i := 0 to RandomCharCount
      invariant buff == EmulatorPrefix + DrawnChars(draws)[..i]
    {
      var randomChar := draws[i];
      var ch := randomChar % DrawModulus;
      buff := buff + [ConstantChars[ch]];
      assert DrawnChars(draws)[..i + 1] == DrawnChars(draws)[..i] + [ConstantChars[ch]];
    }
    assert DrawnChars(draws)[..RandomCharCount] == DrawnChars(draws);
    id := ToLowerCase(buff);
  }

  // ---------------------------------------------------------------------------
  // Resolution

  /**
   * The branch for a non-null, lowercased telephony id: an id that parses to 0
   * takes the stored emulator id when there is a non-empty one, and otherwise a
   * generated one that is also persisted; any other id (including the empty one
   * and one that fails to parse) is kept.
   */
  function FromHardwareId(id: string, stored: Option<string>, draws: seq<int>): (r: Resolution)
    requires ValidDraws(draws)
    ensures r.persisted.Some? ==> r.deviceID == r.persisted && IsEmulatorId(r.persisted.value)
  {
    if |id| != 0 && ParseInt(id) == Some(0) then
      if NonEmpty(stored) then Resolution(stored, None)
      else
        EmulatorIdShape(draws);
        var generated := EmulatorId(draws);
        Resolution(Some(generated), Some(generated))
    else Resolution(Some(id), None)
  }

  /**
   * Device-id resolution as the code is written: `getDeviceId().toLowerCase()`
   * dereferences a null device id before the null check that follows it.
   */
  function ResolveDeviceIdAsWritten(manifestId: Option<string>, telephony: Telephony, stored: Option<string>, draws: seq<int>)
    : (r: Completion<Resolution>)
    requires ValidDraws(draws)
    ensures r.NullPointerThrown? <==> !NonEmpty(manifestId) && telephony == TelephonyManager(None)
  {
    if NonEmpty(manifestId) then Completed(Resolution(manifestId, None))
    else
      match telephony
      case NoTelephonyManager => Completed(Resolution(None, None))
      case TelephonyManager(None) => NullPointerThrown
      case TelephonyManager(Some(h)) => Completed(FromHardwareId(ToLowerCase(h), stored, draws))
  }

  /**
   * Device-id resolution with the null check taking effect: a null device id
   * leaves `deviceID` null, as a missing telephony manager does.
   */
  function ResolveDeviceId(manifestId: Option<string>, telephony: Telephony, stored: Option<string>, draws: seq<int>): (r: Resolution)
    requires ValidDraws(draws)
    ensures NonEmpty(manifestId) ==> r == Resolution(manifestId, None)
    ensures !NonEmpty(manifestId) && (telephony.NoTelephonyManager? || telephony.deviceId.None?) ==>
              r == Resolution(None, None)
    ensures r.persisted.Some? ==> !NonEmpty(stored) && r.deviceID == r.persisted && IsEmulatorId(r.persisted.value)
    ensures ResolveDeviceIdAsWritten(manifestId, telephony, stored, draws).Completed? ==>
              ResolveDeviceIdAsWritten(manifestId, telephony, stored, draws).value == r
  {
    if NonEmpty(manifestId) then Resolution(manifestId, None)
    else
      match telephony
      case NoTelephonyManager => Resolution(None, None)
      case TelephonyManager(None) => Resolution(None, None)
      case TelephonyManager(Some(h)) => FromHardwareId(ToLowerCase(h), stored, draws)
  }

  /** A null device id and no manifest override: the code as written throws. */
  lemma NullDeviceIdThrows(stored: Option<string>, draws: seq<int>)
    requires ValidDraws(draws)
    ensures ResolveDeviceIdAsWritten(None, TelephonyManager(None), stored, draws) == NullPointerThrown
    ensures ResolveDeviceId(None, TelephonyManager(None), stored, draws) == Resolution(None, None)
  {
  }

  /** A telephony id that is not a numeral for zero comes back lowercased, and nothing is written. */
  lemma HardwareIdKept(manifestId: Option<string>, h: string, stored: Option<string>, draws: seq<int>)
    requires ValidDraws(draws)
    requires !NonEmpty(manifestId) && !IsZeroNumeral(ToLowerCase(h))
    ensures ResolveDeviceId(manifestId, TelephonyManager(Some(h)), stored, draws) == Resolution(Some(ToLowerCase(h)), None)
  {
    ParseIntZero(ToLowerCase(h));
  }

  /** A numeral for zero reuses a non-empty stored emulator id and writes nothing. */
  lemma StoredEmulatorIdReused(manifestId: Option<string>, h: string, stored: Option<string>, draws: seq<int>)
    requires ValidDraws(draws)
    requires !NonEmpty(manifestId) && IsZeroNumeral(ToLowerCase(h)) && NonEmpty(stored)
    ensures ResolveDeviceId(manifestId, TelephonyManager(Some(h)), stored, draws) == Resolution(stored, None)
  {
    ParseIntZero(ToLowerCase(h));
  }

  /** A numeral for zero with nothing stored generates an emulator id and persists exactly that id. */
  lemma EmulatorIdGenerated(manifestId: Option<string>, h: string, stored: Option<string>, draws: seq<int>)
    requires ValidDraws(draws)
    requires !NonEmpty(manifestId) && IsZeroNumeral(ToLowerCase(h)) && !NonEmpty(stored)
    ensures var r := ResolveDeviceId(manifestId, TelephonyManager(Some(h)), stored, draws);
            r.persisted.Some? && r.deviceID == r.persisted && IsEmulatorId(r.persisted.value)
  {
    ParseIntZero(ToLowerCase(h));
  }

  /**
   * Resolving again against the store left by a first resolution yields the
   * same id, whatever the new draws, and writes nothing.
   */
  lemma ResolutionStable(manifestId: Option<string>, telephony: Telephony, stored: Option<string>, draws1: seq<int>, draws2: seq<int>)
    requires ValidDraws(draws1) && ValidDraws(draws2)
    ensures var first := ResolveDeviceId(manifestId, telephony, stored, draws1);
            var stored' := if first.persisted.Some? then first.persisted else stored;
            ResolveDeviceId(manifestId, telephony, stored', draws2) == Resolution(first.deviceID, None)
  {
    var first := ResolveDeviceId(manifestId, telephony, stored, draws1);
    if first.persisted.Some? {
      assert NonEmpty(first.persisted);
    }
  }
}
