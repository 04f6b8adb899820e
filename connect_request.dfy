/**
 * What the connect call sends (TapjoyConnect constructor, initMetaData and
 * connect): the metadata fields as a function of the platform facts and the
 * preference store, the nine-pair parameter string, and the connect URL.
 */
module ConnectRequest {
  import opened Wrappers
  import opened JavaStrings
  import opened Preferences
  import opened DeviceIdentity

  // URL parameter names, in the order the constructor appends them.
  const DeviceIdName: string := "udid"
  const DeviceName: string := "device_name"
  const DeviceTypeName: string := "device_type"
  const DeviceOsVersionName: string := "os_version"
  const DeviceCountryCode: string := "country_code"
  const DeviceLanguage: string := "language"
  const AppIdName: string := "app_id"
  const AppVersionName: string := "app_version"
  const ConnectLibraryVersionName: string := "library_version"

  const ParamNames: seq<string> := [DeviceIdName, DeviceName, DeviceTypeName, DeviceOsVersionName,
    DeviceCountryCode, DeviceLanguage, AppIdName, AppVersionName, ConnectLibraryVersionName]

  const ServiceUrl: string := "http://ws.tapjoyads.com/"
  const ConnectUrlPath: string := "connect?"
  const LibraryVersionNumber: string := "7.0.1"
  const DevicePlatformType: string := "android"

  // The preference file and keys.
  const TjcPreference: string := "tjcPrefrences"
  const EmulatorDeviceId: string := "emulatorDeviceId"
  const ReferralUrl: string := "InstallReferral"

  /** The platform facts initMetaData reads. */
  datatype Platform = Platform(
    metaData: Option<map<string, string>>, // the manifest's string meta-data; None: no ApplicationInfo, no metaData, or NameNotFoundException
    versionName: Option<string>,           // PackageInfo.versionName, which may be null
    model: string,                         // android.os.Build.MODEL
    release: string,                       // android.os.Build.VERSION.RELEASE
    country: string,                       // Locale.getDefault().getCountry()
    language: string,                      // Locale.getDefault().getLanguage()
    telephony: Telephony)

  /** `info.metaData.getString(name)`. */
  function MetaString(metaData: map<string, string>, name: string): Option<string>
  {
    if name in metaData then Some(metaData[name]) else None
  }

  /** The instance fields initMetaData assigns; deviceID and appVersion may be null. */
  datatype Fields = Fields(
    deviceID: Option<string>,
    deviceName: string,
    deviceType: string,
    deviceOSVersion: string,
    deviceCountryCode: string,
    deviceLanguage: string,
    appID: string,
    appVersion: Option<string>,
    libraryVersion: string,
    clientPackage: string,
    referralURL: string)

  /** The field initialisers: every field is "". */
  const Unset: Fields := Fields(Some(""), "", "", "", "", "", "", Some(""), "", "", "")

  datatype Loaded = Loaded(fields: Fields, store: map<PrefKey, string>)

  const EmulatorKey: PrefKey := PrefKey(TjcPreference, EmulatorDeviceId)
  const ReferralKey: PrefKey := PrefKey(TjcPreference, ReferralUrl)

  /** The manifest declares a non-empty APP_ID and a non-empty CLIENT_PACKAGE. */
  predicate Configured(p: Platform)
  {
    p.metaData.Some? && NonEmpty(MetaString(p.metaData.value, "APP_ID"))
    && NonEmpty(MetaString(p.metaData.value, "CLIENT_PACKAGE"))
  }

  /**
   * initMetaData as a function of its inputs: the fields it leaves behind and
   * the store after it. A missing APP_ID returns before anything is assigned; a
   * missing CLIENT_PACKAGE returns after appID is assigned. The only write to
   * the store is a generated emulator id.
   */
  function LoadMetaData(p: Platform, store: map<PrefKey, string>, draws: seq<int>): Loaded
    requires ValidDraws(draws)
  {
    if p.metaData.None? then Loaded(Unset, store)
    else
      var md := p.metaData.value;
      var appId := MetaString(md, "APP_ID");
      if !NonEmpty(appId) then Loaded(Unset, store)
      else
        var clientPackage := MetaString(md, "CLIENT_PACKAGE");
        if !NonEmpty(clientPackage) then Loaded(Unset.(appID := appId.value), store)
        else
          var r := ResolveDeviceId(MetaString(md, "DEVICE_ID"), p.telephony, Lookup(store, TjcPreference, EmulatorDeviceId), draws);
          var store' := if r.persisted.Some? then store[EmulatorKey := r.persisted.value] else store;
          var referral := Lookup(store', TjcPreference, ReferralUrl);
          Loaded(Fields(r.deviceID, p.model, DevicePlatformType, p.release, p.country, p.language,
                        appId.value, p.versionName, LibraryVersionNumber, clientPackage.value,
                        if NonEmpty(referral) then referral.value else ""),
                 store')
  }

  /**
   * Without the configuration the store is untouched and deviceID keeps its
   * initialiser; the only write initMetaData makes is a generated emulator id,
   * stored under emulatorDeviceId when no non-empty one was there, and that
   * id is also the device id.
   */
  lemma LoadMetaDataEffects(p: Platform, store: map<PrefKey, string>, draws: seq<int>)
    requires ValidDraws(draws)
    ensures var l := LoadMetaData(p, store, draws);
            !Configured(p) ==> l.fields.deviceID == Some("") && l.fields.referralURL == "" && l.store == store
    ensures var l := LoadMetaData(p, store, draws);
            l.store != store ==>
              (l.fields.deviceID.Some? && IsEmulatorId(l.fields.deviceID.value)
               && !NonEmpty(Lookup(store, TjcPreference, EmulatorDeviceId))
               && l.store == store[EmulatorKey := l.fields.deviceID.value])
  {
  }

  /** The configured case of LoadMetaData, spelled out field by field. */
  lemma LoadConfigured(p: Platform, store: map<PrefKey, string>, draws: seq<int>)
    requires ValidDraws(draws) && Configured(p)
    ensures var md := p.metaData.value;
            var r := ResolveDeviceId(MetaString(md, "DEVICE_ID"), p.telephony, Lookup(store, TjcPreference, EmulatorDeviceId), draws);
            var store' := if r.persisted.Some? then store[EmulatorKey := r.persisted.value] else store;
            var referral := Lookup(store', TjcPreference, ReferralUrl);
            LoadMetaData(p, store, draws) ==
              Loaded(Fields(r.deviceID, p.model, DevicePlatformType, p.release, p.country, p.language,
                            md["APP_ID"], p.versionName, LibraryVersionNumber, md["CLIENT_PACKAGE"],
                            if NonEmpty(referral) then referral.value else ""),
                     store')
  {
  }

  /** Without APP_ID nothing is assigned; without CLIENT_PACKAGE only appID is. */
  lemma MissingConfiguration(p: Platform, store: map<PrefKey, string>, draws: seq<int>)
    requires ValidDraws(draws)
    ensures (p.metaData.None? || !NonEmpty(MetaString(p.metaData.value, "APP_ID"))) ==>
              LoadMetaData(p, store, draws) == Loaded(Unset, store)
    ensures p.metaData.Some? && NonEmpty(MetaString(p.metaData.value, "APP_ID")) && !Configured(p) ==>
              LoadMetaData(p, store, draws) == Loaded(Unset.(appID := p.metaData.value["APP_ID"]), store)
  {
  }

  /** With the configuration present, the stored referral (not the emulator-id write) decides referralURL. */
  lemma ReferralFromStore(p: Platform, store: map<PrefKey, string>, draws: seq<int>)
    requires ValidDraws(draws) && Configured(p)
    ensures var referral := Lookup(store, TjcPreference, ReferralUrl);
            LoadMetaData(p, store, draws).fields.referralURL == if NonEmpty(referral) then referral.value else ""
  {
    assert EmulatorKey != ReferralKey;
  }

  /**
   * A second activation against the store the first one left behind sees the
   * same device id and leaves the store as it is, whatever the new draws.
   */
  lemma DeviceIdStable(p: Platform, store: map<PrefKey, string>, draws1: seq<int>, draws2: seq<int>)
    requires ValidDraws(draws1) && ValidDraws(draws2)
    ensures var first := LoadMetaData(p, store, draws1);
            var second := LoadMetaData(p, first.store, draws2);
            second.fields == first.fields && second.store == first.store
  {
    if Configured(p) {
      var md := p.metaData.value;
      var stored := Lookup(store, TjcPreference, EmulatorDeviceId);
      var r1 := ResolveDeviceId(MetaString(md, "DEVICE_ID"), p.telephony, stored, draws1);
      var first := LoadMetaData(p, store, draws1);
      var stored' := if r1.persisted.Some? then r1.persisted else stored;
      assert Lookup(first.store, TjcPreference, EmulatorDeviceId) == stored';
      ResolutionStable(MetaString(md, "DEVICE_ID"), p.telephony, stored, draws1, draws2);
      if r1.persisted.Some? {
        assert first.store[EmulatorKey := r1.persisted.value] == first.store;
      }
    }
  }

  // ---------------------------------------------------------------------------
  // The parameter string

  function ParamValues(f: Fields): seq<string>
  {
    [Shown(f.deviceID), f.deviceName, f.deviceType, f.deviceOSVersion, f.deviceCountryCode,
     f.deviceLanguage, f.appID, Shown(f.appVersion), f.libraryVersion]
  }

  /** The nine `name=value` pairs, in the order the constructor appends them. */
  function Pairs(f: Fields): seq<string>
  {
    seq(|ParamNames|, k requires 0 <= k < |ParamNames| => ParamNames[k] + "=" + ParamValues(f)[k])
  }

  /** The pairs written out one by one, as the constructor's appends spell them. */
  lemma PairsListed(f: Fields)
    ensures Pairs(f) ==
      [DeviceIdName + "=" + Shown(f.deviceID), DeviceName + "=" + f.deviceName,
       DeviceTypeName + "=" + f.deviceType, DeviceOsVersionName + "=" + f.deviceOSVersion,
       DeviceCountryCode + "=" + f.deviceCountryCode, DeviceLanguage + "=" + f.deviceLanguage,
       AppIdName + "=" + f.appID, AppVersionName + "=" + Shown(f.appVersion),
       ConnectLibraryVersionName + "=" + f.libraryVersion]
  {
    var vs := ParamValues(f);
    assert |Pairs(f)| == 9;
    assert vs[0] == Shown(f.deviceID) && vs[7] == Shown(f.appVersion);
  }

  /** `urlParams` once the constructor has appended every pair. */
  function UrlParams(f: Fields): string
  {
    Join(Pairs(f), '&')
  }

  /** Appending `pair + "&"` for the first eight pairs and the last pair bare, starting from "", joins them by '&'. */
  lemma JoinedByAppends(a0: string, a1: string, a2: string, a3: string, a4: string,
                        a5: string, a6: string, a7: string, a8: string)
    ensures Join([a0, a1, a2, a3, a4, a5, a6, a7, a8], '&') ==
      "" + (a0 + "&") + (a1 + "&") + (a2 + "&") + (a3 + "&") + (a4 + "&")
      + (a5 + "&") + (a6 + "&") + (a7 + "&") + a8
  {
    var ps := [a0, a1, a2, a3, a4, a5, a6, a7, a8];
    var s := "" + (a0 + "&");
    assert ps[..1] == [a0];
    assert s == Join(ps[..1], '&') + "&";
    s := s + (a1 + "&");
    JoinStep(ps, '&', 1);
    s := s + (a2 + "&");
    JoinStep(ps, '&', 2);
    s := s + (a3 + "&");
    JoinStep(ps, '&', 3);
    s := s + (a4 + "&");
    JoinStep(ps, '&', 4);
    s := s + (a5 + "&");
    JoinStep(ps, '&', 5);
    s := s + (a6 + "&");
    JoinStep(ps, '&', 6);
    s := s + (a7 + "&");
    JoinStep(ps, '&', 7);
    assert s == Join(ps[..8], '&') + "&";
    assert ps[..9] == ps && ps[..9][..8] == ps[..8];
    assert Join(ps, '&') == s + a8;
  }

  /**
   * The parameter string holds nine pairs: it starts with the udid pair and a
   * '&', and it ends with the library_version pair rather than with '&'.
   */
  lemma UrlParamsShape(f: Fields)
    ensures |Pairs(f)| == |ParamNames| == 9
    ensures var first := DeviceIdName + "=" + Shown(f.deviceID) + "&";
            |first| <= |UrlParams(f)| && UrlParams(f)[..|first|] == first
    ensures var last := ConnectLibraryVersionName + "=" + f.libraryVersion;
            |last| <= |UrlParams(f)| && UrlParams(f)[|UrlParams(f)| - |last|..] == last
  {
    PairsListed(f);
    JoinHead(Pairs(f), '&');
  }

  /** A null deviceID is sent as the text `udid=null`, the first pair of the string. */
  lemma NullDeviceIdSent(f: Fields)
    requires f.deviceID.None?
    ensures Pairs(f)[0] == "udid=null"
    ensures |"udid=null&"| <= |UrlParams(f)| && UrlParams(f)[..|"udid=null&"|] == "udid=null&"
  {
    PairsListed(f);
    UrlParamsShape(f);
  }

  /**
   * Read back by splitting at '&', the parameter string gives exactly the nine
   * pairs, provided no value contains '&'.
   */
  lemma UrlParamsSplit(f: Fields)
    requires forall k :: 0 <= k < 9 ==> '&' !in ParamValues(f)[k]
    ensures Split(UrlParams(f), '&') == Pairs(f)
    ensures |Split(UrlParams(f), '&')| == 9
  {
    UrlParamsShape(f);
    var ps := Pairs(f);
    forall k | 0 <= k < 9 ensures '&' !in ps[k] {
      assert '&' !in ParamNames[k] + "=";
      assert ps[k] == (ParamNames[k] + "=") + ParamValues(f)[k];
    }
    SplitJoin(ps, '&');
  }

  /** With APP_ID missing, the string still holds all nine pairs, each `name=` with nothing after it. */
  lemma UnsetParams()
    ensures Split(UrlParams(Unset), '&') == seq(9, k requires 0 <= k < 9 => ParamNames[k] + "=")
  {
    assert forall k :: 0 <= k < 9 ==> ParamValues(Unset)[k] == "";
    UrlParamsSplit(Unset);
    UrlParamsShape(Unset);
    var expected := seq(9, k requires 0 <= k < 9 => ParamNames[k] + "=");
    forall k | 0 <= k < 9 ensures Pairs(Unset)[k] == expected[k] {
      assert Pairs(Unset)[k] == ParamNames[k] + "=" + "";
    }
  }

  // ---------------------------------------------------------------------------
  // The connect URL

  /** connect(): a non-empty referral is appended to urlParams after '&'. */
  function ParamsWithReferral(urlParams: string, referralURL: string): string
  {
    if referralURL != "" then urlParams + "&" + referralURL else urlParams
  }

  /** The URL connect() opens, after `replaceAll(" ", "%20")`. */
  function ConnectUrl(urlParams: string, referralURL: string): string
  {
    ReplaceSpaces(ServiceUrl + ConnectUrlPath + ParamsWithReferral(urlParams, referralURL))
  }

  /**
   * The URL is the fixed service address, then the parameters and, when it is
   * non-empty, '&' and the referral, with each space written as %20.
   */
  lemma ServiceBaseClean()
    ensures ' ' !in ServiceUrl + ConnectUrlPath && '%' !in ServiceUrl + ConnectUrlPath
  {
  }

  lemma ReplaceSpacesAround(a: string, b: string)
    ensures ReplaceSpaces(a + "&" + b) == ReplaceSpaces(a) + "&" + ReplaceSpaces(b)
  {
    ReplaceSpacesAppend(a + "&", b);
    ReplaceSpacesAppend(a, "&");
    ReplaceSpacesKeeps("&");
  }

  /** Escaping the query distributes over the '&' that joins a non-empty referral. */
  lemma EscapedQuery(urlParams: string, referralURL: string)
    ensures ReplaceSpaces(ParamsWithReferral(urlParams, referralURL)) ==
      ReplaceSpaces(urlParams) + (if referralURL != "" then "&" + ReplaceSpaces(referralURL) else "")
  {
    if referralURL != "" {
      ReplaceSpacesAround(urlParams, referralURL);
    } else {
      assert ReplaceSpaces(urlParams) + "" == ReplaceSpaces(urlParams);
    }
  }

  lemma EscapedAfter(base: string, urlParams: string, referralURL: string)
    requires ' ' !in base
    ensures ReplaceSpaces(base + ParamsWithReferral(urlParams, referralURL)) ==
      base + ReplaceSpaces(urlParams) + (if referralURL != "" then "&" + ReplaceSpaces(referralURL) else "")
  {
    ReplaceSpacesAfterClean(base, ParamsWithReferral(urlParams, referralURL));
    EscapedQuery(urlParams, referralURL);
  }

  lemma ConnectUrlLayout(urlParams: string, referralURL: string)
    ensures ConnectUrl(urlParams, referralURL) ==
      ServiceUrl + ConnectUrlPath + ReplaceSpaces(urlParams)
      + (if referralURL != "" then "&" + ReplaceSpaces(referralURL) else "")
  {
    ServiceBaseClean();
    EscapedAfter(ServiceUrl + ConnectUrlPath, urlParams, referralURL);
  }

  /** Only spaces are rewritten: decoding %20 gives the request back when neither part holds a '%'. */
  lemma ConnectUrlDecodes(urlParams: string, referralURL: string)
    requires '%' !in urlParams && '%' !in referralURL
    ensures UnescapeSpaces(ConnectUrl(urlParams, referralURL)) ==
      ServiceUrl + ConnectUrlPath + ParamsWithReferral(urlParams, referralURL)
  {
    var base := ServiceUrl + ConnectUrlPath;
    var whole := base + ParamsWithReferral(urlParams, referralURL);
    ServiceBaseClean();
    assert '%' !in whole;
    UnescapeReplaceSpaces(whole);
  }
}
