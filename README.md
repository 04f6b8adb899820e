# Tapjoy Connect (Android) in Dafny

A model of the Android install-attribution client `com.tapjoy.TapjoyConnect` and its
install-referral receiver `com.tapjoy.TapjoyReferralTracker`.

The host application calls `getTapjoyConnectInstance` once per activation. The first call
builds the singleton. Its constructor runs `initMetaData`, which reads the manifest
meta-data (`APP_ID`, `CLIENT_PACKAGE`, `DEVICE_ID`), the platform facts and the shared
preference file `tjcPrefrences`. It then appends nine `name=value` pairs to `urlParams`
and starts one background connect task. That task appends a cached referral, escapes
spaces as `%20`, calls `http://ws.tapjoyads.com/connect?...` and reports success only
when the first `<Success>` element of the XML response holds the text `true`.
`finalize` empties the static slot. The referral receiver cuts `referrer=...` out of the
install intent's URI and caches it under `InstallReferral`, in the same preference file
the connect client reads it from.

Modules, in dependency order:

- `Wrappers` (wrappers.dfy): `Option`, standing for a Java reference that may be null.
- `JavaStrings` (java_strings.dfy): the `String`/`Integer` operations the client uses:
  - null-aware concatenation;
  - ASCII `toLowerCase`;
  - `trim`;
  - `indexOf`;
  - `Integer.parseInt`;
  - `replaceAll(" ", "%20")`.

  It also holds `Join`/`Split`, which serve as reference definitions.
- `Preferences` (preferences.dfy): the shared preference store, a class over a
  `map` keyed by file and key.
- `DeviceIdentity` (device_identity.dfy): device-id resolution and the emulator-id
  generator loop.
- `ConnectResponse` (connect_response.dfy): `getNodeTrimValue` and `buildResponse`,
  over the parsed document given abstractly.
- `ConnectRequest` (connect_request.dfy): what `initMetaData` loads, stated as a
  function of its inputs. It also defines the parameter string and the connect URL.
- `Tapjoy` (tapjoy_connect.dfy): the `TapjoyConnect` class, whose fields the
  constructor, `initMetaData` and `connect` update in place. It also holds the static
  instance slot, as the `InstanceSlot` class.
- `ReferralTracker` (referral_tracker.dfy): `onReceive`.

Platform facts are inputs of the model:

- `PackageManager` meta-data and `versionName`;
- `Build.MODEL`, `Build.VERSION.RELEASE`;
- `Locale` country and language;
- `TelephonyManager`;
- `Intent.toURI()`.

`Math.random()` is replaced by a sequence of draws, each the value of
`(int)(Math.random() * 100)`, so each draw lies in [0, 100). What the network call
returned, and what the XML parser produced from it, are also inputs.

Notes on what the code does, which the model follows:

- The generated emulator id is `"emulator"` followed by 32 characters, 40 characters in
  all. Each character is picked with `% 30` from the 33-character table
  `1234567890abcdefghijklmnopqrstuvw`, so `u`, `v` and `w` never appear after the prefix.
- A `Success` element whose text is only blanks yields `""`, not null (`trim()` of a
  non-empty string). The verdict is false either way.
- When `CLIENT_PACKAGE` is missing, `appID` has already been assigned before the
  early return. When `APP_ID` is missing, nothing is assigned. In both cases the
  constructor still builds all nine pairs and starts the connect task.
- `finalize()` overrides `Object.finalize`, so it clears the static slot whichever
  instance it runs on.
- The null check on the telephony device id comes after the id has already been
  dereferenced; see Findings. The class uses the corrected resolution.

## Model

| member | source | states |
|---|---|---|
| JavaStrings.ToLowerCase | android/src/com/tapjoy/TapjoyConnect.java:226 | same length; each character is lowercased if it is an ASCII capital and left as it is otherwise |
| JavaStrings.ToLowerCaseAppend | android/src/com/tapjoy/TapjoyConnect.java:260 | lowercasing distributes over concatenation (used on "EMULATOR" + drawn characters) |
| JavaStrings.Trim | android/src/com/tapjoy/TapjoyConnect.java:471 | the result is a slice of the input; everything cut off on either side is a character up to U+0020; the result neither starts nor ends with one |
| JavaStrings.TrimPadded | android/src/com/tapjoy/TapjoyConnect.java:471 | trimming blank padding off a text with non-blank ends gives that text back exactly |
| JavaStrings.IndexOf | android/src/com/tapjoy/TapjoyReferralTracker.java:22 | the result is -1 or an occurrence of the pattern, and no occurrence comes before it |
| JavaStrings.ParseInt | android/src/com/tapjoy/TapjoyConnect.java:237 | a parsed value lies in the 32-bit range, and the text after an optional sign is a non-empty run of decimal digits; None stands for NumberFormatException |
| JavaStrings.ParseIntZero | android/src/com/tapjoy/TapjoyConnect.java:237-242 | parseInt yields 0 exactly for the numerals of zero: an optional sign, then one or more '0's |
| JavaStrings.DigitsValueZero | android/src/com/tapjoy/TapjoyConnect.java:237 | a digit string is worth 0 exactly when every digit is '0' |
| JavaStrings.ReplaceSpaces | android/src/com/tapjoy/TapjoyConnect.java:349 | the escaped string contains no space |
| JavaStrings.ReplaceSpacesAppend | android/src/com/tapjoy/TapjoyConnect.java:349 | escaping distributes over concatenation |
| JavaStrings.ReplaceSpacesKeeps | android/src/com/tapjoy/TapjoyConnect.java:349 | a string without spaces is left unchanged |
| JavaStrings.UnescapeReplaceSpaces | android/src/com/tapjoy/TapjoyConnect.java:349 | decoding %20 after escaping gives the original string back when it holds no '%': only spaces are rewritten |
| JavaStrings.SplitJoin | android/src/com/tapjoy/TapjoyConnect.java:133-141 | splitting the '&'-joined pairs at '&' gives the pairs back when none contains '&' |
| JavaStrings.JoinHead | android/src/com/tapjoy/TapjoyConnect.java:133-141 | with two or more pairs, the '&'-join starts with the first pair followed by '&' |
| JavaStrings.JoinStep | android/src/com/tapjoy/TapjoyConnect.java:133-141 | one more `+= pair + "&"` extends the join of the pairs so far by that pair |
| Preferences.PreferenceStore.PutString | android/src/com/tapjoy/TapjoyConnect.java:262-264 | the store afterwards is the old one with that single key set to the value |
| DeviceIdentity.GenerateEmulatorId | android/src/com/tapjoy/TapjoyConnect.java:238-260 | the StringBuffer loop produces exactly the lowercased "EMULATOR" plus one table character per draw (draw % 30), 32 times |
| DeviceIdentity.EmulatorIdShape | android/src/com/tapjoy/TapjoyConnect.java:250-260 | a generated id is "emulator" followed by 32 characters from the first 30 of the table, 40 characters in all |
| DeviceIdentity.FromHardwareId | android/src/com/tapjoy/TapjoyConnect.java:229-271 | whenever an id is persisted it is a well-formed emulator id and is also the resulting device id |
| DeviceIdentity.ResolveDeviceIdAsWritten | android/src/com/tapjoy/TapjoyConnect.java:212-277 | the code as written throws a NullPointerException exactly when no non-empty DEVICE_ID is in the manifest and a telephony manager returns a null device id |
| DeviceIdentity.ResolveDeviceId | android/src/com/tapjoy/TapjoyConnect.java:212-277 | a non-empty manifest DEVICE_ID wins and writes nothing; without one, a missing telephony manager or a null telephony id leaves deviceID null and writes nothing; an id is persisted only when no non-empty one was stored, and it is then the device id and a well-formed emulator id; whenever the code as written completes, the corrected resolution gives the same result |
| DeviceIdentity.NullDeviceIdThrows | android/src/com/tapjoy/TapjoyConnect.java:224-229 | with no manifest id and a null telephony id the code as written throws, while the corrected resolution leaves deviceID null |
| DeviceIdentity.HardwareIdKept | android/src/com/tapjoy/TapjoyConnect.java:226-242 | a lowercased telephony id that is not a numeral of zero (it fails to parse, or parses to another value) becomes the device id unchanged, and nothing is written |
| DeviceIdentity.StoredEmulatorIdReused | android/src/com/tapjoy/TapjoyConnect.java:242-249 | an id that parses to 0 takes the non-empty stored emulatorDeviceId, and nothing is written |
| DeviceIdentity.EmulatorIdGenerated | android/src/com/tapjoy/TapjoyConnect.java:250-264 | an id that parses to 0, with nothing stored, yields a generated emulator id that is also persisted |
| DeviceIdentity.ResolutionStable | android/src/com/tapjoy/TapjoyConnect.java:242-264 | resolving again against the store the first resolution left gives the same id and writes nothing, whatever the new draws |
| ConnectRequest.LoadMetaDataEffects | android/src/com/tapjoy/TapjoyConnect.java:154-187 | without APP_ID or without CLIENT_PACKAGE the store is untouched, and deviceID and referralURL keep their "" initialisers; the only write is a generated emulator id, made only when none was stored |
| ConnectRequest.MissingConfiguration | android/src/com/tapjoy/TapjoyConnect.java:162-187 | without meta-data or APP_ID every field stays ""; without CLIENT_PACKAGE only appID is assigned |
| ConnectRequest.ReferralFromStore | android/src/com/tapjoy/TapjoyConnect.java:283-285 | once configured, referralURL is the non-empty stored InstallReferral value, and "" otherwise; the emulator-id write does not affect it |
| ConnectRequest.DeviceIdStable | android/src/com/tapjoy/TapjoyConnect.java:212-285 | a second initMetaData against the store the first one left loads the same fields and writes nothing |
| ConnectRequest.JoinedByAppends | android/src/com/tapjoy/TapjoyConnect.java:133-141 | appending `pair + "&"` eight times, then the last pair bare, starting from "", is the '&'-join of the nine pairs |
| ConnectRequest.UrlParamsShape | android/src/com/tapjoy/TapjoyConnect.java:133-141 | exactly nine pairs; the string starts with the udid pair followed by '&' and ends with the library_version pair, not with '&' |
| ConnectRequest.NullDeviceIdSent | android/src/com/tapjoy/TapjoyConnect.java:133 | a null deviceID is sent as `udid=null`, the first pair, followed by '&' |
| ConnectRequest.UrlParamsSplit | android/src/com/tapjoy/TapjoyConnect.java:133-141 | read back by splitting at '&', the string gives exactly the nine pairs when no value contains '&' |
| ConnectRequest.UnsetParams | android/src/com/tapjoy/TapjoyConnect.java:133-141 | with nothing loaded the string still holds the nine pairs, each `name=` |
| ConnectRequest.EscapedQuery | android/src/com/tapjoy/TapjoyConnect.java:338-349 | escaping the query is escaping the parameters, then '&' and the escaped referral only when the referral is non-empty |
| ConnectRequest.ConnectUrlLayout | android/src/com/tapjoy/TapjoyConnect.java:338-349 | the URL is the fixed service address and path, then the escaped parameters and, only for a non-empty referral, '&' and the escaped referral |
| ConnectRequest.ConnectUrlDecodes | android/src/com/tapjoy/TapjoyConnect.java:338-349 | decoding %20 in the URL gives back the unescaped request when neither part holds '%': every other character is unchanged |
| ConnectResponse.GetNodeTrimValue | android/src/com/tapjoy/TapjoyConnect.java:453-479 | the loop returns null without an element or for an empty concatenation of child values (a null value counts as "null"), and the trimmed concatenation otherwise |
| ConnectResponse.BuildResponse | android/src/com/tapjoy/TapjoyConnect.java:394-445 | true exactly when the document parsed and the trimmed text of its first Success element is "true" |
| ConnectResponse.AcknowledgedPadded | android/src/com/tapjoy/TapjoyConnect.java:403-406 | "true" padded on either side with characters up to U+0020, however it is split across child nodes, is an acknowledgement |
| ConnectResponse.ConcatNodeValuesAppend | android/src/com/tapjoy/TapjoyConnect.java:462-467 | the text of two runs of children is the text of the first run followed by the text of the second |
| ConnectResponse.NullChildShowsNull | android/src/com/tapjoy/TapjoyConnect.java:466 | a child with a null node value puts exactly the four characters "null" at its place in the concatenation, between the text of the children before it and the text of those after it |
| ConnectResponse.TrimWithNIsNotTrue | android/src/com/tapjoy/TapjoyConnect.java:406 | a text that holds an 'n' anywhere never trims to "true" |
| ConnectResponse.NullChildRejected | android/src/com/tapjoy/TapjoyConnect.java:462-471 | a Success element with a child whose node value is null is never an acknowledgement |
| ConnectResponse.AcknowledgedExamples | android/src/com/tapjoy/TapjoyConnect.java:406 | `<Success>true</Success>` is an acknowledgement |
| ConnectResponse.AcknowledgedAcrossNodes | android/src/com/tapjoy/TapjoyConnect.java:462-471 | " tr" followed by "ue\n" in two text nodes is an acknowledgement |
| ConnectResponse.RejectedExamples | android/src/com/tapjoy/TapjoyConnect.java:394-479 | "True", "false", a null child, no children, no Success element and a parse failure are all rejected |
| Tapjoy.TapjoyConnect.constructor | android/src/com/tapjoy/TapjoyConnect.java:125-147 | the fields are what initMetaData loads from the platform and the store, the store is updated accordingly, urlParams is the nine-pair string of those fields, and the instance has started exactly one connect task |
| Tapjoy.TapjoyConnect.AppendUrlParams | android/src/com/tapjoy/TapjoyConnect.java:133-141 | the nine `urlParams +=` steps leave the '&'-join of the pairs, and change no other field |
| Tapjoy.TapjoyConnect.InitMetaData | android/src/com/tapjoy/TapjoyConnect.java:154-315 | the fields and the store afterwards are exactly those of LoadMetaData on the old store; urlParams and the task are untouched |
| Tapjoy.TapjoyConnect.LoadPlatformFacts | android/src/com/tapjoy/TapjoyConnect.java:189-207 | app version, platform type, model, OS release, country, language and library version are copied in; no other field changes |
| Tapjoy.ReadDeviceId | android/src/com/tapjoy/TapjoyConnect.java:212-277 | the assigned id and the store afterwards are those of ResolveDeviceId on the stored emulatorDeviceId |
| Tapjoy.TapjoyConnect.Connect | android/src/com/tapjoy/TapjoyConnect.java:335-383 | urlParams gains '&' and the referral only when the referral is non-empty; the URL opened is ConnectUrl; the result is true exactly when a response arrived and is an acknowledgement |
| Tapjoy.InstanceSlot.GetTapjoyConnectInstance | android/src/com/tapjoy/TapjoyConnect.java:112-118 | with the slot empty a fresh instance is built (one construction, and the slot's task count grows by the one task the new instance reports) and stored; otherwise the held instance is returned and neither the store nor the counts change |
| Tapjoy.InstanceSlot.Finalize | android/src/com/tapjoy/TapjoyConnect.java:485-489 | the slot is emptied and the construction count is kept |
| Tapjoy.ActivationCycles | android/src/com/tapjoy/TapjoyConnect.java:112-118 | a repeated call returns the same instance; after finalize the next call builds a different instance with the same fields and parameter string |
| ReferralTracker.ExtractReferral | android/src/com/tapjoy/TapjoyReferralTracker.java:19-25 | a value is extracted exactly when the URI is non-null and contains `referrer=`; it holds at least five characters, so the substring is never out of bounds |
| ReferralTracker.ReferralSlice | android/src/com/tapjoy/TapjoyReferralTracker.java:22-25 | the value is `uri[i .. length-4)` for the first occurrence i of the marker, and the end index is at least i + 5 |
| ReferralTracker.ReferralStartsWithMarker | android/src/com/tapjoy/TapjoyReferralTracker.java:25 | the value starts with as much of `referrer=` as it has room for, and with all of it when four or more characters follow the marker |
| ReferralTracker.CaptureReferral | android/src/com/tapjoy/TapjoyReferralTracker.java:19-31 | no key other than InstallReferral changes; nothing is written without a referral; with one, InstallReferral holds it afterwards |
| ReferralTracker.OnReceive | android/src/com/tapjoy/TapjoyReferralTracker.java:15-38 | the store afterwards is CaptureReferral of the old store and the intent's URI |
| ReferralTracker.LastReceiptWins | android/src/com/tapjoy/TapjoyReferralTracker.java:28-31 | a second receipt that carries a referral overwrites whatever the first one wrote |
| ReferralTracker.CapturedReferralReachesConnect | android/src/com/tapjoy/TapjoyReferralTracker.java:11-12 | the receiver writes under the file and key that initMetaData reads (TapjoyConnect.java lines 92-93 and 283), so a captured referral becomes referralURL and is appended after '&' by connect |

## Left out

- Java's `toLowerCase` is locale- and Unicode-aware. The model lowercases only ASCII capitals, which covers the decimal and hexadecimal device ids it is applied to.
- `Integer.parseInt` also accepts non-ASCII Unicode decimal digits. The model accepts ASCII digits with an optional '+' or '-' sign.
- `AsyncTask` execution: the connect task is recorded only as a count of started tasks (the ghost field `connectTasks`). The model does not cover its running concurrently with the receiver's write or with a later `finalize`.
- The network: opening the connection, the 15000 ms and 30000 ms timeouts, and the socket, malformed-URL and I/O exceptions are collapsed into the `NetworkResult` input.
- The XML parser (`DocumentBuilder`): its outcome is an input. It is either a parse failure or the node values of the children of the first `Success` element.
- `PackageManager`: a missing `ApplicationInfo` or meta-data, and a `NameNotFoundException`, are all "no meta-data". Meta-data values that are not strings are treated as absent. A `NameNotFoundException` from `getPackageInfo`, which cannot happen for the app's own package, is not modelled.
- Logging, the commented-out primary-colour and tap-points code, and the `SharedPreferences` editor mechanics beyond a map update.
- `Math.random()` is floating point. It is replaced by draws in [0, 100), one per generated character. `DeviceIdentity.ValidDraws` requires at least 32 of them, whether or not an id is generated.
- ReferralTracker.ExtractReferral: Java string indices and `length()` count UTF-16 code units, while the model counts Unicode scalar values. For a URI holding a character outside the Basic Multilingual Plane, the four characters dropped from the end can differ; for example, "xreferrer=abc;en" followed by U+1F600 gives "referrer=abc;" in Java and "referrer=abc" in the model. The model agrees with Java on every URI made of Basic Multilingual Plane characters, which includes the percent-encoded ASCII form `Intent.toURI()` normally produces.
- ReferralTracker.OnReceive: stores what `ReferralTracker.ExtractReferral` cuts, so the same UTF-16 difference applies to the stored referral.
- Tapjoy.TapjoyConnect.constructor, `Tapjoy.TapjoyConnect.InitMetaData` and `Tapjoy.ReadDeviceId` follow the corrected device-id resolution (`DeviceIdentity.ResolveDeviceId`). When the telephony manager returns a null device id and the manifest has no DEVICE_ID, they complete with a null `deviceID`, where the Java constructor throws a NullPointerException at android/src/com/tapjoy/TapjoyConnect.java:226 (see Findings).
- `Tapjoy.InstanceSlot.Finalize` models Java's `finalize` called on any instance. Garbage-collector timing is not modelled.

## Findings

| source | as written | input that shows it | evidently intended | confidence | as-written member | corrected member |
|---|---|---|---|---|---|---|
| android/src/com/tapjoy/TapjoyConnect.java:226-229 | `deviceID = telephonyManager.getDeviceId().toLowerCase()` dereferences the id before the `deviceID == null` check on the next lines; the resulting NullPointerException is not caught (only NameNotFoundException is), so it escapes the constructor and `getTapjoyConnectInstance` | no `DEVICE_ID` in the manifest, a telephony manager present, and `getDeviceId()` returning null | a null id takes the "Device id is null or empty" branch and leaves `deviceID` null, as a missing telephony manager does | not executed | DeviceIdentity.ResolveDeviceIdAsWritten | DeviceIdentity.ResolveDeviceId |
