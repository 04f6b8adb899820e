/**
 * The install-referral broadcast receiver (TapjoyReferralTracker.onReceive):
 * it cuts the referral out of the intent's URI and caches it in the shared
 * preference store, where TapjoyConnect picks it up on its next construction.
 * `intent.toURI()` is an input; logging is not modelled.
 */
module ReferralTracker {
  import opened Wrappers
  import opened JavaStrings
  import opened Preferences
  import ConnectRequest
  import DeviceIdentity

  // The receiver's own copies of the preference file and key names.
  const TjcPreference: string := "tjcPrefrences"
  const ReferralUrl: string := "InstallReferral"

  /** The marker the receiver searches the URI for. */
  const ReferrerMarker: string := "referrer="

  /** The number of trailing characters `substring(index, length - 4)` drops. */
  const DroppedSuffix: nat := 4

  /**
   * The referral onReceive caches, if any: from the first `referrer=` up to the
   * last four characters. A null or empty URI, or one without the marker,
   * yields nothing. The marker is nine characters long, so the end index never
   * falls before the start and the value holds at least five characters.
   */
  function ExtractReferral(uri: Option<string>): (r: Option<string>)
    ensures r.Some? <==> uri.Some? && exists j :: OccursAt(uri.value, ReferrerMarker, j)
    ensures r.Some? ==> |r.value| >= |ReferrerMarker| - DroppedSuffix
  {
    if uri.Some? && |uri.value| > 0 then
      var index := IndexOf(uri.value, ReferrerMarker);
      if index > -1 then Some(uri.value[index..|uri.value| - DroppedSuffix]) else None
    else None
  }

  /** The stored value is the slice that starts at the first occurrence of the marker. */
  lemma ReferralSlice(uri: string, i: nat)
    requires OccursAt(uri, ReferrerMarker, i)
    requires forall j :: 0 <= j < i ==> !OccursAt(uri, ReferrerMarker, j)
    ensures i + |ReferrerMarker| - DroppedSuffix <= |uri| - DroppedSuffix
    ensures ExtractReferral(Some(uri)) == Some(uri[i..|uri| - DroppedSuffix])
  {
  }

  /**
   * The stored value starts with as much of `referrer=` as it has room for,
   * and with all of it once four or more characters follow the marker.
   */
  lemma ReferralStartsWithMarker(uri: string)
    requires ExtractReferral(Some(uri)).Some?
    ensures var v := ExtractReferral(Some(uri)).value;
            var n := if |v| < |ReferrerMarker| then |v| else |ReferrerMarker|;
            v[..n] == ReferrerMarker[..n]
    ensures var i := IndexOf(uri, ReferrerMarker);
            i + |ReferrerMarker| + DroppedSuffix <= |uri| ==>
              ExtractReferral(Some(uri)).value[..|ReferrerMarker|] == ReferrerMarker
  {
    var i := IndexOf(uri, ReferrerMarker);
    var v := ExtractReferral(Some(uri)).value;
    var n := if |v| < |ReferrerMarker| then |v| else |ReferrerMarker|;
    assert uri[i..i + |ReferrerMarker|] == ReferrerMarker;
    assert v[..n] == uri[i..i + n];
    assert uri[i..i + n] == uri[i..i + |ReferrerMarker|][..n];
  }

  const ReferralKey: PrefKey := PrefKey(TjcPreference, ReferralUrl)

  /** The store after onReceive: the extracted referral is written under InstallReferral, nothing else changes. */
  function CaptureReferral(entries: map<PrefKey, string>, uri: Option<string>): (r: map<PrefKey, string>)
    ensures forall k :: k != ReferralKey ==> (k in r <==> k in entries) && (k in r ==> r[k] == entries[k])
    ensures ExtractReferral(uri).None? ==> r == entries
    ensures ExtractReferral(uri).Some? ==> Lookup(r, TjcPreference, ReferralUrl) == ExtractReferral(uri)
  {
    match ExtractReferral(uri)
    case None => entries
    case Some(referral) => entries[ReferralKey := referral]
  }

  /** onReceive: the `uri` variable is reassigned to the slice, then committed to the store. */
  method OnReceive(settings: PreferenceStore, intentUri: Option<string>)
    modifies settings
    ensures settings.entries == CaptureReferral(old(settings.entries), intentUri)
  {
    var uri := intentUri;
    if uri.Some? && |uri.value| > 0 {
      var index := IndexOf(uri.value, ReferrerMarker);
      if index > -1 {
        uri := Some(uri.value[index..|uri.value| - DroppedSuffix]);
        settings.PutString(TjcPreference, ReferralUrl, uri.value);
      }
    }
  }

  /** A second receipt that carries a referral overwrites the first. */
  lemma LastReceiptWins(entries: map<PrefKey, string>, first: Option<string>, second: Option<string>)
    requires ExtractReferral(second).Some?
    ensures CaptureReferral(CaptureReferral(entries, first), second) == CaptureReferral(entries, second)
  {
    var r := ExtractReferral(second).value;
    match ExtractReferral(first)
    case None =>
    case Some(v) =>
      assert entries[ReferralKey := v][ReferralKey := r] == entries[ReferralKey := r];
  }

  /**
   * The receiver writes under the very file and key TapjoyConnect reads the
   * referral from, so a captured referral becomes the next instance's
   * referralURL and is appended after '&' in its connect request.
   */
  lemma CapturedReferralReachesConnect(p: ConnectRequest.Platform, entries: map<PrefKey, string>,
                                       uri: Option<string>, draws: seq<int>, urlParams: string)
    requires DeviceIdentity.ValidDraws(draws) && ConnectRequest.Configured(p)
    requires ExtractReferral(uri).Some?
    ensures var referral := ConnectRequest.LoadMetaData(p, CaptureReferral(entries, uri), draws).fields.referralURL;
            referral == ExtractReferral(uri).value
            && ConnectRequest.ParamsWithReferral(urlParams, referral) == urlParams + "&" + ExtractReferral(uri).value
  {
    assert TjcPreference == ConnectRequest.TjcPreference && ReferralUrl == ConnectRequest.ReferralUrl;
    ConnectRequest.ReferralFromStore(p, CaptureReferral(entries, uri), draws);
  }
}
