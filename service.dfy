/** The decision logic of the `/predict` handler (main.py): validation,
    filtering by the model-bundled vocabulary, encoding, thresholding and the
    mapping of exceptions to HTTP status codes. The classifier and the
    vocabulary loaded with it are parameters. */
module Service {
  import opened Wrappers
  import Utils

  /** The request body. Only `permissions` takes part in the decision. */
  datatype AppData = AppData(
    packageName: string,
    appName: string,
    permissions: seq<string>,
    sha256: Option<string>,
    appSize: Option<int>,
    installSource: Option<string>,
    appCategory: Option<string>)

  /** The response body. */
  datatype RiskPrediction = RiskPrediction(riskScore: real, riskLabel: string)

  /** The exceptions that can reach the handler's `except` clauses. */
  datatype Exception =
    | ValueError(message: string)
    | HttpException(statusCode: nat, detail: string)
    | OtherException(message: string)

  /** Either a value or a raised exception. */
  datatype Outcome<+T> = Return(value: T) | Raise(exception: Exception)

  /** The loaded classifier: the class-1 probability of a feature vector, or
      the exception `predict_proba` raises (a wrong vector shape, say). */
  type Classifier = seq<int> -> Outcome<real>

  /** What the client receives: the prediction, or an HTTP error. */
  datatype Response = Ok(prediction: RiskPrediction) | HttpError(statusCode: nat, detail: string)

  const Suspicious: string := "suspicious"
  const Benign: string := "benign"

  /** "suspicious" exactly when the score is strictly above 0.5. */
  function RiskLabel(score: real): (tag: string)
    ensures tag == Suspicious || tag == Benign
    ensures tag == Suspicious <==> score > 0.5
  {
    if score > 0.5 then Suspicious else Benign
  }

  /** The requested permissions that are in the model-bundled list, with
      their order and repetitions. */
  function MappedPermissions(bundled: seq<string>, permissions: seq<string>): (r: seq<string>)
    ensures |r| <= |permissions|
    ensures forall x :: x in r <==> x in permissions && x in bundled
  {
    if permissions == [] then []
    else (if permissions[0] in bundled then [permissions[0]] else []) + MappedPermissions(bundled, permissions[1..])
  }

  /** `s` is made of decimal digits only. */
  predicate IsDigits(s: string) {
    forall i :: 0 <= i < |s| ==> '0' <= s[i] <= '9'
  }

  /** The number a string of decimal digits denotes. */
  function DecimalValue(s: string): nat
    requires IsDigits(s)
  {
    if s == [] then 0 else 10 * DecimalValue(s[..|s| - 1]) + (s[|s| - 1] as int - 48)
  }

  /** Decimal digits of a natural number, without leading zeros. */
  function DecimalDigits(n: nat): (r: string)
    ensures r != [] && IsDigits(r)
    ensures |r| > 1 ==> r[0] != '0'
  {
    if n < 10 then [(48 + n) as char]
    else DecimalDigits(n / 10) + [(48 + n % 10) as char]
  }

  /** Reading the digits back gives the number. */
  lemma {:induction false} DecimalDigitsRoundTrip(n: nat)
    ensures DecimalValue(DecimalDigits(n)) == n
  {
    if n >= 10 {
      DecimalDigitsRoundTrip(n / 10);
      var r := DecimalDigits(n);
      assert r[..|r| - 1] == DecimalDigits(n / 10);
    }
  }

  /** The text of an exception: its message, and for an HTTP exception the
      status code, a colon and the detail. */
  function Describe(e: Exception): (r: string)
    ensures !e.HttpException? ==> r == e.message
    ensures e.HttpException? ==>
      var k := |DecimalDigits(e.statusCode)|;
      k + 2 <= |r| && IsDigits(r[..k]) && DecimalValue(r[..k]) == e.statusCode
      && r[k..k + 2] == ": " && r[k + 2..] == e.detail
  {
    match e
    case ValueError(m) => m
    case HttpException(code, detail) =>
      var r := DecimalDigits(code) + ": " + detail;
      DecimalDigitsRoundTrip(code);
      assert r[..|DecimalDigits(code)|] == DecimalDigits(code);
      assert r[|DecimalDigits(code)|..|DecimalDigits(code)| + 2] == ": ";
      assert r[|DecimalDigits(code)| + 2..] == detail;
      r
    case OtherException(m) => m
  }

  const NoPermissionsDetail: string := "No permissions provided"
  const PredictionErrorPrefix: string := "Prediction error: "

  /** The body of the handler's `try` block. */
  function Attempt(model: Classifier, bundled: seq<string>, app: AppData): (r: Outcome<RiskPrediction>)
    ensures app.permissions == [] ==> r == Raise(HttpException(400, NoPermissionsDetail))
    ensures app.permissions != [] ==> (r.Raise? <==> model(ModelInput(bundled, app)).Raise?)
    ensures app.permissions != [] && r.Raise? ==> r.exception == model(ModelInput(bundled, app)).exception
    ensures r.Return? ==> model(ModelInput(bundled, app)) == Return(r.value.riskScore)
    ensures r.Return? ==> r.value.riskLabel in {Suspicious, Benign}
    ensures r.Return? ==> (r.value.riskLabel == Suspicious <==> r.value.riskScore > 0.5)
  {
    if app.permissions == [] then Raise(HttpException(400, NoPermissionsDetail))
    else
      match model(ModelInput(bundled, app))
      case Raise(e) => Raise(e)
      case Return(score) => Return(RiskPrediction(score, RiskLabel(score)))
  }

  /** The handler's `except` clauses: a `ValueError` becomes status 400 with
      its message, any other exception status 500 with a prefixed message. */
  function Handle(outcome: Outcome<RiskPrediction>): (r: Response)
    ensures r.Ok? <==> outcome.Return?
    ensures outcome.Return? ==> r == Ok(outcome.value)
    ensures r.HttpError? ==> r.statusCode == 400 || r.statusCode == 500
    ensures r.HttpError? ==> (r.statusCode == 400 <==> outcome.exception.ValueError?)
    ensures outcome.Raise? && outcome.exception.ValueError? ==> r.detail == outcome.exception.message
    ensures outcome.Raise? && !outcome.exception.ValueError? ==>
      r.detail == PredictionErrorPrefix + Describe(outcome.exception)
  {
    match outcome
    case Return(p) => Ok(p)
    case Raise(ValueError(m)) => HttpError(400, m)
    case Raise(e) => HttpError(500, PredictionErrorPrefix + Describe(e))
  }

  /** The `/predict` handler. An empty permission list is answered with
      status 500: its status-400 exception is raised inside the `try` and is
      not a `ValueError`, so the generic clause wraps it. */
  function Predict(model: Classifier, bundled: seq<string>, app: AppData): (r: Response)
    ensures app.permissions == [] ==> r.HttpError? && r.statusCode == 500
    ensures r.HttpError? ==> r.statusCode == 400 || r.statusCode == 500
    ensures r.Ok? ==> r.prediction.riskLabel in {Suspicious, Benign}
    ensures r.Ok? ==> (r.prediction.riskLabel == Suspicious <==> r.prediction.riskScore > 0.5)
  {
    Handle(Attempt(model, bundled, app))
  }

  /** The classifier receives the encoding of the mapped permissions. */
  function ModelInput(bundled: seq<string>, app: AppData): (v: seq<int>)
    ensures |v| == |Utils.DangerousPermissions|
    ensures forall i :: 0 <= i < |v| ==> v[i] == 0 || v[i] == 1
    ensures forall i :: 0 <= i < |v| ==>
      (v[i] == 1 <==> Utils.DangerousPermissions[i] in app.permissions && Utils.DangerousPermissions[i] in bundled)
  {
    Utils.Features(MappedPermissions(bundled, app.permissions))
  }

  /** The mapping keeps every occurrence of a bundled permission and drops
      every other string. */
  lemma {:induction false} MappedPermissionsCount(bundled: seq<string>, permissions: seq<string>, x: string)
    ensures multiset(MappedPermissions(bundled, permissions))[x] ==
            if x in bundled then multiset(permissions)[x] else 0
  {
    if permissions != [] {
      MappedPermissionsCount(bundled, permissions[1..], x);
      assert permissions == [permissions[0]] + permissions[1..];
    }
  }

  /** The mapping keeps relative order: it distributes over concatenation. */
  lemma {:induction false} MappedPermissionsAppend(bundled: seq<string>, p: seq<string>, q: seq<string>)
    ensures MappedPermissions(bundled, p + q) == MappedPermissions(bundled, p) + MappedPermissions(bundled, q)
  {
    if p == [] {
      assert p + q == q;
    } else {
      assert (p + q)[1..] == p[1..] + q;
      MappedPermissionsAppend(bundled, p[1..], q);
    }
  }

  /** When the bundled list holds the whole dangerous vocabulary, the mapping
      does not change the feature vector. */
  lemma MappedFeaturesFullVocabulary(bundled: seq<string>, app: AppData)
    requires forall x :: x in Utils.DangerousPermissions ==> x in bundled
    ensures ModelInput(bundled, app) == Utils.Features(app.permissions)
  {
    var v, w := ModelInput(bundled, app), Utils.Features(app.permissions);
    forall i | 0 <= i < |v|
      ensures v[i] == w[i]
    {
      assert Utils.DangerousPermissions[i] in Utils.DangerousPermissions;
    }
  }

  /** The static heuristic's count is the length of the mapping over the
      dangerous vocabulary. */
  lemma {:induction false} DangerousCountIsMapped(permissions: seq<string>)
    ensures Utils.DangerousCount(permissions) == |MappedPermissions(Utils.DangerousPermissions, permissions)|
  {
    if permissions != [] {
      DangerousCountIsMapped(permissions[1..]);
    }
  }

  /** An empty list is answered with status 500 and the wrapped text of the
      status-400 exception, not with status 400. */
  lemma EmptyPermissionsAnswer500(model: Classifier, bundled: seq<string>, app: AppData)
    requires app.permissions == []
    ensures Predict(model, bundled, app) == HttpError(500, PredictionErrorPrefix + "400: " + NoPermissionsDetail)
    ensures Predict(model, bundled, app) != PredictIntended(model, bundled, app)
  {
    assert DecimalDigits(4) == "4" && DecimalDigits(40) == "40" && DecimalDigits(400) == "400";
    assert Describe(HttpException(400, NoPermissionsDetail)) == "400: " + NoPermissionsDetail;
    assert PredictionErrorPrefix + ("400: " + NoPermissionsDetail) == PredictionErrorPrefix + "400: " + NoPermissionsDetail;
  }

  /** An empty list is answered without consulting the classifier or the
      bundled list. */
  lemma EmptyPermissionsIgnoreModel(m1: Classifier, m2: Classifier, b1: seq<string>, b2: seq<string>, app: AppData)
    requires app.permissions == []
    ensures Predict(m1, b1, app) == Predict(m2, b2, app)
  {
  }

  /** A scored request returns the classifier's probability unchanged,
      labelled by the 0.5 threshold. */
  lemma PredictScored(model: Classifier, bundled: seq<string>, app: AppData, score: real)
    requires app.permissions != []
    requires model(ModelInput(bundled, app)) == Return(score)
    ensures Predict(model, bundled, app) == Ok(RiskPrediction(score, RiskLabel(score)))
    ensures Predict(model, bundled, app).prediction.riskLabel == Suspicious <==> score > 0.5
  {
  }

  /** A `ValueError` from the classifier becomes status 400 with its message;
      any other exception status 500 with "Prediction error: " before its
      text. */
  lemma PredictClassifierRaises(model: Classifier, bundled: seq<string>, app: AppData, e: Exception)
    requires app.permissions != []
    requires model(ModelInput(bundled, app)) == Raise(e)
    ensures e.ValueError? ==> Predict(model, bundled, app) == HttpError(400, e.message)
    ensures !e.ValueError? ==> Predict(model, bundled, app) == HttpError(500, PredictionErrorPrefix + Describe(e))
  {
  }

  /** Package name, app name, hash, size, install source and category never
      affect the response. */
  lemma PredictIgnoresMetadata(model: Classifier, bundled: seq<string>, a: AppData, b: AppData)
    requires a.permissions == b.permissions
    ensures Predict(model, bundled, a) == Predict(model, bundled, b)
  {
  }

  /** Status 400 is returned exactly when the list is non-empty and the
      classifier raised a `ValueError`. */
  lemma PredictStatus400(model: Classifier, bundled: seq<string>, app: AppData)
    ensures Predict(model, bundled, app).HttpError? && Predict(model, bundled, app).statusCode == 400
            <==> app.permissions != [] && model(ModelInput(bundled, app)).Raise?
                 && model(ModelInput(bundled, app)).exception.ValueError?
  {
  }

  /** The handler as evidently intended: an empty list is rejected with
      status 400 before the `try` block; everything else is unchanged. */
  function PredictIntended(model: Classifier, bundled: seq<string>, app: AppData): (r: Response)
    ensures app.permissions == [] ==> r == HttpError(400, NoPermissionsDetail)
    ensures app.permissions != [] ==> r == Predict(model, bundled, app)
  {
    if app.permissions == [] then HttpError(400, NoPermissionsDetail)
    else Handle(Attempt(model, bundled, app))
  }
}
