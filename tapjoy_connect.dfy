/**
 * The TapjoyConnect object: its constructor fills the fields from the platform
 * and the preference store, builds `urlParams` pair by pair and starts one
 * connect task; `Connect` is what that task runs. The static field holding the
 * singleton is the InstanceSlot class.
 */
module Tapjoy {
  import opened Wrappers
  import opened JavaStrings
  import opened Preferences
  import opened DeviceIdentity
  import opened ConnectResponse
  import opened ConnectRequest

  /** What became of the HTTP request of the connect call. */
  datatype NetworkResult =
    | SocketTimeout
    | MalformedUrl
    | IoFailure
    | Delivered(document: ParsedDocument)

  class TapjoyConnect {
    var deviceID: Option<string>
    var deviceName: string
    var deviceType: string
    var deviceOSVersion: string
    var deviceCountryCode: string
    var deviceLanguage: string
    var appID: string
    var appVersion: Option<string>
    var libraryVersion: string
    var clientPackage: string
    var urlParams: string
    var referralURL: string
    /** How many times this instance has called `connectTask.execute()`. */
    ghost var connectTasks: nat

    function Snapshot(): Fields
      reads this
    {
      Fields(deviceID, deviceName, deviceType, deviceOSVersion, deviceCountryCode, deviceLanguage,
             appID, appVersion, libraryVersion, clientPackage, referralURL)
    }

    /**
     * The private constructor: the fields are those initMetaData loads (all ""
     * when the configuration is missing), `urlParams` holds the nine pairs,
     * and the instance has started exactly one connect task.
     */
    constructor (platform: Platform, settings: PreferenceStore, draws: seq<int>)
      requires ValidDraws(draws)
      modifies settings
      ensures Snapshot() == LoadMetaData(platform, old(settings.entries), draws).fields
      ensures settings.entries == LoadMetaData(platform, old(settings.entries), draws).store
      ensures urlParams == UrlParams(Snapshot())
      ensures connectTasks == 1
    {
      deviceID := Some("");
      deviceName := "";
      deviceType := "";
      deviceOSVersion := "";
      deviceCountryCode := "";
      deviceLanguage := "";
      appID := "";
      appVersion := Some("");
      libraryVersion := "";
      clientPackage := "";
      urlParams := "";
      referralURL := "";
      connectTasks := 0;
      new;
      InitMetaData(platform, settings, draws);
      AppendUrlParams();
      connectTasks := connectTasks + 1;
    }

    /** The constructor's nine `urlParams +=` steps, starting from "". */
    method AppendUrlParams()
      requires urlParams == ""
      modifies this
      ensures urlParams == UrlParams(Snapshot())
      ensures Snapshot() == old(Snapshot()) && connectTasks == old(connectTasks)
    {
      PairsListed(Snapshot());
      JoinedByAppends(DeviceIdName + "=" + Shown(deviceID), DeviceName + "=" + deviceName,
                      DeviceTypeName + "=" + deviceType, DeviceOsVersionName + "=" + deviceOSVersion,
                      DeviceCountryCode + "=" + deviceCountryCode, DeviceLanguage + "=" + deviceLanguage,
                      AppIdName + "=" + appID, AppVersionName + "=" + Shown(appVersion),
                      ConnectLibraryVersionName + "=" + libraryVersion);
      urlParams := urlParams + (DeviceIdName + "=" + Shown(deviceID) + "&");
      urlParams := urlParams + (DeviceName + "=" + deviceName + "&");
      urlParams := urlParams + (DeviceTypeName + "=" + deviceType + "&");
      urlParams := urlParams + (DeviceOsVersionName + "=" + deviceOSVersion + "&");
      urlParams := urlParams + (DeviceCountryCode + "=" + deviceCountryCode + "&");
      urlParams := urlParams + (DeviceLanguage + "=" + deviceLanguage + "&");
      urlParams := urlParams + (AppIdName + "=" + appID + "&");
      urlParams := urlParams + (AppVersionName + "=" + Shown(appVersion) + "&");
      urlParams := urlParams + (ConnectLibraryVersionName + "=" + libraryVersion);
    }

    /**
     * initMetaData, starting from the field initialisers. The device id is
     * resolved with the null check on the telephony id taking effect.
     */
    method InitMetaData(platform: Platform, settings: PreferenceStore, draws: seq<int>)
      requires ValidDraws(draws) && Snapshot() == Unset
      modifies this, settings
      ensures Snapshot() == LoadMetaData(platform, old(settings.entries), draws).fields
      ensures settings.entries == LoadMetaData(platform, old(settings.entries), draws).store
      ensures urlParams == old(urlParams) && connectTasks == old(connectTasks)
    {
      if platform.metaData.None? {
        return;
      }
      var metaData := platform.metaData.value;
      var metaDataValue := MetaString(metaData, "APP_ID");
      if NonEmpty(metaDataValue) {
        appID := metaDataValue.value;
      } else {
        return;
      }
      metaDataValue := MetaString(metaData, "CLIENT_PACKAGE");
      if NonEmpty(metaDataValue) {
        clientPackage := metaDataValue.value;
      } else {
        return;
      }
      LoadPlatformFacts(platform);

      LoadConfigured(platform, settings.entries, draws);
      metaDataValue := MetaString(metaData, "DEVICE_ID");
      deviceID := ReadDeviceId(metaDataValue, platform.telephony, settings, draws);

      var tempReferralURL := settings.GetString(TjcPreference, ReferralUrl);
      if NonEmpty(tempReferralURL) {
        referralURL := tempReferralURL.value;
      }
    }

    /** The platform facts initMetaData copies once the configuration is present. */
    method LoadPlatformFacts(platform: Platform)
      modifies this
      ensures appVersion == platform.versionName && deviceType == DevicePlatformType
      ensures deviceName == platform.model && deviceOSVersion == platform.release
      ensures deviceCountryCode == platform.country && deviceLanguage == platform.language
      ensures libraryVersion == LibraryVersionNumber
      ensures deviceID == old(deviceID) && appID == old(appID) && clientPackage == old(clientPackage)
      ensures referralURL == old(referralURL) && urlParams == old(urlParams)
      ensures connectTasks == old(connectTasks)
    {
      appVersion := platform.versionName;
      deviceType := DevicePlatformType;
      deviceName := platform.model;
      deviceOSVersion := platform.release;
      deviceCountryCode := platform.country;
      deviceLanguage := platform.language;
      libraryVersion := LibraryVersionNumber;
    }

    /**
     * connect(): appends a non-empty referral to `urlParams`, opens the URL with
     * its spaces escaped, and succeeds only when a response arrived and is an
     * acknowledgement.
     */
    method Connect(network: NetworkResult) returns (url: string, ok: bool)
      modifies this
      ensures urlParams == ParamsWithReferral(old(urlParams), referralURL)
      ensures url == ConnectUrl(old(urlParams), referralURL)
      ensures ok == (network.Delivered? && Acknowledged(network.document))
      ensures Snapshot() == old(Snapshot()) && connectTasks == old(connectTasks)
    {
      if referralURL != "" {
        urlParams := urlParams + "&" + referralURL;
      }
      url := ServiceUrl + ConnectUrlPath + urlParams;
      url := ReplaceSpaces(url);
      if network.Delivered? {
        ok := BuildResponse(network.document);
      } else {
        ok := false;
      }
    }
  }

  /**
   * The device-id part of initMetaData, with the null check on the telephony id
   * taking effect: the id it assigns, and the emulator id it persists.
   */
  method ReadDeviceId(manifestId: Option<string>, telephony: Telephony, settings: PreferenceStore, draws: seq<int>)
    returns (deviceID: Option<string>)
    requires ValidDraws(draws)
    modifies settings
    ensures var r := ResolveDeviceId(manifestId, telephony, old(settings.GetString(TjcPreference, EmulatorDeviceId)), draws);
            deviceID == r.deviceID
            && settings.entries == if r.persisted.Some? then old(settings.entries)[EmulatorKey := r.persisted.value]
                                   else old(settings.entries)
  {
    if NonEmpty(manifestId) {
      return manifestId;
    }
    match telephony
    case NoTelephonyManager =>
      deviceID := None;
    case TelephonyManager(hardwareId) =>
      if hardwareId.None? {
        deviceID := None;
      } else {
        deviceID := Some(ToLowerCase(hardwareId.value));
        if deviceID.value != "" {
          var devTag := ParseInt(deviceID.value);
          if devTag == Some(0) {
            var storedId := settings.GetString(TjcPreference, EmulatorDeviceId);
            if NonEmpty(storedId) {
              deviceID := storedId;
            } else {
              var generated := GenerateEmulatorId(draws);
              deviceID := Some(generated);
              settings.PutString(TjcPreference, EmulatorDeviceId, generated);
            }
          }
        }
      }
  }

  /**
   * The static field `tapjoyConnectInstance`, with ghost counts of the
   * instances constructed and of the connect tasks those instances report.
   */
  class InstanceSlot {
    var instance: TapjoyConnect?
    ghost var constructions: nat
    ghost var connectTasksStarted: nat

    /** The constructed instances started one connect task each, and a held instance has started exactly one. */
    ghost predicate Valid()
      reads this, instance
    {
      connectTasksStarted == constructions && (instance != null ==> instance.connectTasks == 1)
    }

    constructor ()
      ensures Valid() && instance == null && constructions == 0
    {
      instance := null;
      constructions := 0;
      connectTasksStarted := 0;
    }

    /**
     * getTapjoyConnectInstance: constructs an instance, which starts a connect
     * task, only while the slot is empty; otherwise returns the held instance
     * and touches nothing.
     */
    method GetTapjoyConnectInstance(platform: Platform, settings: PreferenceStore, draws: seq<int>) returns (c: TapjoyConnect)
      requires Valid() && ValidDraws(draws)
      modifies this, settings
      ensures Valid() && instance == c
      ensures connectTasksStarted == old(connectTasksStarted) + (if old(instance) == null then 1 else 0)
      ensures old(instance) != null ==>
                c == old(instance) && constructions == old(constructions)
                && settings.entries == old(settings.entries)
      ensures old(instance) == null ==>
                fresh(c) && constructions == old(constructions) + 1
                && c.Snapshot() == LoadMetaData(platform, old(settings.entries), draws).fields
                && c.urlParams == UrlParams(c.Snapshot())
                && settings.entries == LoadMetaData(platform, old(settings.entries), draws).store
    {
      if instance == null {
        instance := new TapjoyConnect(platform, settings, draws);
        constructions := constructions + 1;
        connectTasksStarted := connectTasksStarted + instance.connectTasks;
      }
      c := instance;
    }

    /** finalize(): empties the slot, whichever instance it is called on. */
    method Finalize()
      requires Valid()
      modifies this
      ensures Valid() && instance == null
      ensures constructions == old(constructions)
    {
      instance := null;
    }
  }

  /**
   * Two activations of the host: the second call of an activation returns the
   * first instance and starts no task; after finalize the next call builds a
   * new instance, which resolves the same device id from the store the first
   * one left, whatever the new draws.
   */
  method ActivationCycles(platform: Platform, settings: PreferenceStore, draws1: seq<int>, draws2: seq<int>)
    returns (first: TapjoyConnect, again: TapjoyConnect, next: TapjoyConnect)
    requires ValidDraws(draws1) && ValidDraws(draws2)
    modifies settings
    ensures again == first && next != first
    ensures next.Snapshot() == first.Snapshot() && next.urlParams == first.urlParams
  {
    var slot := new InstanceSlot();
    ghost var before := settings.entries;
    first := slot.GetTapjoyConnectInstance(platform, settings, draws1);
    again := slot.GetTapjoyConnectInstance(platform, settings, draws1);
    assert slot.constructions == 1 && slot.connectTasksStarted == 1;
    slot.Finalize();
    next := slot.GetTapjoyConnectInstance(platform, settings, draws2);
    assert slot.constructions == 2 && slot.connectTasksStarted == 2;
    DeviceIdStable(platform, before, draws1, draws2);
  }
}
