# Android app risk prediction service — Dafny model

The service answers `POST /predict` with a risk score and a label for an
Android application, described by its requested permissions (plus metadata
that plays no part in the decision). Around an opaque pre-trained classifier
it has a few pieces of deterministic logic, and this project models them:

- `utils.dfy`, module `Utils` (utils.py):
  - the permission vocabulary: a fixed list of 45 human-readable permission
    descriptions, filtered to the 31 that end with the dangerous marker
    `"(D)"`; the order of the filtered list fixes the feature-slot positions;
  - the binary feature encoder `feature_engineering`: a method that allocates
    a zero array with one slot per dangerous permission and sets slot i in a
    loop, proved equal to the indicator-vector function `Features`;
  - the model-free heuristic `calculate_static_risk`, over `real`;
  - the reputation stub `check_virustotal_api`, which only formats a message
    around the first eight characters of the hash.
- `service.dfy`, module `Service` (main.py): the decision made by `predict`:
  the empty-list check, the mapping of the request onto the vocabulary bundled
  with the model, encoding, the strict `> 0.5` threshold and the mapping of
  exceptions to status codes. The classifier is a parameter (a total function
  from the feature vector to a probability or a raised exception), and so is
  the bundled vocabulary.
- `wrappers.dfy`, module `Wrappers`: the `Option` type.

Two behaviours of the code are reproduced as written:

- The full permission list lacks a comma between its tenth and eleventh
  descriptions (utils.py:19-20), so the two literals form one string,
  `"System tools : change Wi-Fi state (D)Your messages : read SMS or MMS (D)"`.
  The list has 45 entries, 31 of them dangerous, and the SMS/MMS read
  permission is not a vocabulary entry: a request that names it sets no slot
  (`Utils.RunTogetherEntry`, `Utils.ReadSmsOrMmsMissing`).
- An empty permission list raises the status-400 exception inside the `try`
  block. It is not a `ValueError`, so the generic clause catches it and the
  client receives status 500 with detail
  `"Prediction error: 400: No permissions provided"`
  (`Service.EmptyPermissionsAnswer500`; see Findings).

## Model

| member | source | states |
|---|---|---|
| Utils.IsDangerousEndsWith | utils.py:62 | the character-wise marker test `IsDangerous` holds exactly when the last three characters are "(D)", as `p.endswith('(D)')` |
| Utils.FilterDangerous | utils.py:61-63 | the comprehension over the list from a position on; it never yields more entries than it scans (its members are stated by `FilterDangerousMembers`) |
| Utils.FilterDangerousMembers | utils.py:61-63 | an entry is kept exactly when it occurs in the list and ends with "(D)" |
| Utils.FilterDangerousAppend | utils.py:61-63 | the filter keeps relative order: filtering a concatenation is concatenating the filtered parts |
| Utils.DangerousPermissionsMembers | utils.py:61-63 | the vocabulary is exactly the "(D)" entries of the full list, and every vocabulary entry ends with "(D)" |
| Utils.DangerousPermissionsSize | utils.py:9-63 | the full list has 45 entries and the vocabulary 31 |
| Utils.AllPermissionsDistinct | utils.py:9-58 | no description occurs twice in the full list |
| Utils.FilterDangerousDistinct | utils.py:61-63 | filtering a list without repetitions yields one without repetitions |
| Utils.DangerousPermissionsDistinct | utils.py:61-63 | the vocabulary holds no entry twice, so each feature slot stands for a different permission |
| Utils.RunTogetherEntry | utils.py:19-23 | the run-together tenth string is a vocabulary entry, and the Wi-Fi description is one through the thirteenth entry |
| Utils.ReadSmsOrMmsMissing | utils.py:19-20 | "Your messages : read SMS or MMS (D)" ends with "(D)" yet is not in the vocabulary |
| Utils.Encode | utils.py:75-80 | one slot per vocabulary entry, every slot 0 or 1, slot i is 1 exactly when entry i occurs in the request |
| Utils.Features | utils.py:72-75 | the feature vector has one slot per dangerous permission, whatever the request length |
| Utils.FeatureEngineering | utils.py:64-82 | the array it returns is newly allocated, has length `len(DANGEROUS_PERMISSIONS)` and holds exactly `Features(permissions)` |
| Utils.EncodeSameMembers | utils.py:78-80 | requests with the same set of strings encode alike |
| Utils.EncodePermutation | utils.py:78-80 | permuting the request does not change the vector |
| Utils.EncodeDuplicate | utils.py:78-80 | repeating a requested string does not change the vector |
| Utils.EncodeUnknown | utils.py:78-80 | a string that is not a vocabulary entry changes nothing |
| Utils.EncodeEmpty | utils.py:75-80 | the empty request gives the all-zero vector |
| Utils.EncodeOnes | utils.py:75-80 | over a vocabulary without repetitions, the number of 1-slots is the number of distinct vocabulary entries in the request |
| Utils.FeaturesOnes | utils.py:75-80 | the feature vector has as many 1-slots as there are distinct dangerous permissions in the request |
| Utils.HashPrefix | utils.py:103 | the slice `sha256[:8]`: the first eight characters, or the whole hash when shorter, never an error |
| Utils.CheckVirusTotal | utils.py:84-103 | the status message embeds the hash prefix between the fixed prefix and suffix, and `ReportedHash` reads it back |
| Utils.CheckVirusTotalSame | utils.py:103 | two hashes give the same message exactly when their eight-character prefixes agree |
| Utils.DangerousCount | utils.py:119 | the dangerous count never exceeds the list length |
| Utils.DangerousCountAppend | utils.py:119 | the count is taken with multiplicity: it adds up over concatenation |
| Utils.Divisor | utils.py:123 | the divisor is the larger of 5 and half the list length |
| Utils.DivisorValue | utils.py:123 | up to ten permissions the divisor is exactly 5, from ten on half the length |
| Utils.RiskRatio | utils.py:123 | the ratio lies in [0, 1], is 1 exactly when the count reaches the divisor, and is count / divisor below that |
| Utils.StaticRisk | utils.py:105-125 | the risk lies in [0, 1] and the empty list scores 0 |
| Utils.RiskRatioMonotone | utils.py:123 | for a fixed length, a larger dangerous count never gives a lower risk |
| Utils.StaticRiskMonotone | utils.py:116-123 | the same for two lists of equal length |
| Service.RiskLabel | main.py:67 | the label is "suspicious" or "benign", and "suspicious" exactly when the score is strictly above 0.5 |
| Service.MappedPermissions | main.py:54 | the mapped list is no longer than the request, and its members are exactly the requested strings that are in the bundled list |
| Service.MappedPermissionsCount | main.py:54 | each bundled string keeps all its occurrences, every other string has none |
| Service.MappedPermissionsAppend | main.py:54 | the mapping keeps the request's order |
| Service.ModelInput | main.py:54-58 | the classifier's input has one slot per dangerous permission, every slot 0 or 1, slot i being 1 exactly when that permission is both requested and bundled |
| Service.MappedFeaturesFullVocabulary | main.py:54-58 | when the bundled list covers the dangerous vocabulary, the mapping does not change the vector |
| Service.DangerousCountIsMapped | main.py:54 | the heuristic's dangerous count is the length of the mapping over the dangerous vocabulary |
| Service.Attempt | main.py:41-72 | the `try` body: an empty list raises the status-400 exception; otherwise it raises exactly when the classifier raises, with the classifier's exception, and a returned prediction carries the classifier's score and is labelled "suspicious" when that score is strictly above 0.5 and "benign" otherwise |
| Service.Handle | main.py:74-77 | the `except` clauses: a value passes through as a success; a `ValueError` becomes status 400 with its message; any other exception status 500 with "Prediction error: " before its text |
| Service.DecimalDigits | main.py:77 | the status code as `str` prints it: a non-empty string of decimal digits without a leading zero |
| Service.DecimalDigitsRoundTrip | main.py:77 | reading those digits back as a decimal number gives the status code |
| Service.Describe | main.py:74-77 | the text `str(e)`: the message of a `ValueError` or other exception unchanged; for an HTTP exception its decimal status code, then ": ", then its detail |
| Service.Predict | main.py:40-77 | an empty list gives status 500; an error is status 400 or 500; a success is labelled by the strict 0.5 threshold |
| Service.EmptyPermissionsAnswer500 | main.py:41-77 | an empty list yields status 500 with detail "Prediction error: 400: No permissions provided", unlike the intended handler |
| Service.EmptyPermissionsIgnoreModel | main.py:50-51 | an empty list is answered before the classifier or the bundled list is consulted |
| Service.PredictScored | main.py:66-72 | a scored request returns the classifier's class-1 probability unchanged with its threshold label |
| Service.PredictClassifierRaises | main.py:74-77 | a `ValueError` yields status 400 with its message, any other exception status 500 with "Prediction error: " before its text |
| Service.PredictIgnoresMetadata | main.py:9-16 | package name, app name, hash, size, install source and category never affect the response |
| Service.PredictStatus400 | main.py:74-75 | status 400 is returned exactly when the list is non-empty and the classifier raised a `ValueError` |
| Service.PredictIntended | main.py:50-51 | the intended handler answers an empty list with status 400 "No permissions provided" and agrees with `Predict` on every other request |

## Left out

- FastAPI application setup, routing, the `/` endpoint, request-schema
  validation by pydantic and the `uvicorn` entry point (main.py:1-26, 35-37,
  79-81): framework plumbing.
- Loading `model.pkl` and the start-up `RuntimeError` (main.py:29-33): file
  I/O and deserialisation. The loaded classifier and its bundled list are
  parameters of `Service.Predict`.
- The classifier's internals (`predict_proba`, main.py:66): an opaque numeric
  model, represented by a function from the feature vector to a probability
  or an exception.
- Logging with `print` and `json.dumps`, and the array `reshape`
  (main.py:43-48, 55, 59-63): side effects and shape plumbing.
- Floating-point rounding in `calculate_static_risk` and `float(risk_score)`:
  the model computes over exact reals.
- The commented-out VirusTotal HTTP request (utils.py:95-100): network I/O
  that the code does not perform.
- Service.Describe: the text of an HTTP exception is taken to be the status
  code, a colon, a space and the detail, as the web framework's exception
  class prints it; that class is not part of this model.

## Findings

| source | as written | input that shows it | evidently intended | confidence | as-written member | corrected member |
|---|---|---|---|---|---|---|
| main.py:50-51, 76-77 | the status-400 rejection of an empty list is raised inside the `try`, so `except Exception` turns it into status 500 "Prediction error: 400: No permissions provided" | a request with `permissions: []` | status 400 "No permissions provided" | high (the catch-all clause is certain; the exact detail text depends on the framework's exception printing); not executed | Service.EmptyPermissionsAnswer500 | Service.PredictIntended |
