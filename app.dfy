/**
 * The Flask handlers: the dashboard guard, the prediction endpoint's label
 * mapping, the upload endpoint that writes threat alerts to the alert log,
 * the endpoint that reads the log back, the retraining guard and the
 * session kept by login and logout.
 *
 * A request body is the decoded JSON value (`Null` when there is none).
 * An exception a handler does not catch becomes `Raised`, which the
 * framework answers with a server error.
 */
module App {
  import opened Common
  import opened AlertLog

  /** What a handler answers. */
  datatype Response =
    | Json(status: int, body: Value)
    | Redirect(endpoint: string)
    | Page(template: string)

  const Ok := 200
  const BadRequest := 400

  // ---------------------------------------------------------------------
  // Session

  /** The signed-cookie session: a dictionary the handlers read and update. */
  class Session {
    var entries: map<string, string>

    constructor(entries: map<string, string>)
      ensures this.entries == entries
    {
      this.entries := entries;
    }

    /** `dashboard()`: only a session carrying `user_id` sees the dashboard. */
    function Dashboard(): (r: Response)
      reads this
      ensures r == Redirect("login") <==> "user_id" !in entries
      ensures r != Redirect("login") ==> r == Page("dashboard.html")
    {
      DashboardFor(entries)
    }

    /** `login()`: a POST records the user and goes to the dashboard; a GET shows the form and changes nothing. */
    method Login(isPost: bool) returns (r: Response)
      modifies this
      ensures entries == LoginSession(old(entries), isPost)
      ensures r == (if isPost then Redirect("dashboard") else Page("login.html"))
    {
      if isPost {
        entries := entries["user_id" := "authenticated_user"];
        return Redirect("dashboard");
      }
      return Page("login.html");
    }

    /** `logout()`: removes `user_id` if present and goes to the login page. */
    method Logout() returns (r: Response)
      modifies this
      ensures entries == LogoutSession(old(entries))
      ensures r == Redirect("login")
    {
      entries := entries - {"user_id"};
      return Redirect("login");
    }
  }

  /** What the dashboard answers for a session. */
  function DashboardFor(session: map<string, string>): Response
  {
    if "user_id" !in session then Redirect("login") else Page("dashboard.html")
  }

  /** The session after `login`. */
  function LoginSession(session: map<string, string>, isPost: bool): map<string, string>
  {
    if isPost then session["user_id" := "authenticated_user"] else session
  }

  /** The session after `logout`. */
  function LogoutSession(session: map<string, string>): map<string, string>
  {
    session - {"user_id"}
  }

  /** After a POST to login the dashboard is shown, and the other entries are untouched. */
  lemma LoginOpensDashboard(session: map<string, string>)
    ensures DashboardFor(LoginSession(session, true)) == Page("dashboard.html")
    ensures forall k :: k in session && k != "user_id" ==> k in LoginSession(session, true) && LoginSession(session, true)[k] == session[k]
  {
  }

  /** After logout the dashboard redirects to login, whether or not a user was recorded; other entries stay. */
  lemma LogoutClosesDashboard(session: map<string, string>)
    ensures DashboardFor(LogoutSession(session)) == Redirect("login")
    ensures forall k :: k != "user_id" ==> (k in LogoutSession(session) <==> k in session)
    ensures "user_id" !in session ==> LogoutSession(session) == session
  {
  }

  /** Logging out twice is logging out once; logging in twice is logging in once. */
  lemma SessionIdempotent(session: map<string, string>)
    ensures LogoutSession(LogoutSession(session)) == LogoutSession(session)
    ensures LoginSession(LoginSession(session, true), true) == LoginSession(session, true)
  {
  }

  // ---------------------------------------------------------------------
  // /predict

  /** The result text: "Normal" for a prediction equal to 0, "Threat Detected" for anything else. */
  function ResultText(prediction: Value): string
  {
    if EqualsZero(prediction) then "Normal" else "Threat Detected"
  }

  /**
   * `predict_endpoint()`: `request.json.get("data", [])` is classified and the
   * label mapped to a result text. A body that is not a JSON object has no
   * `get` and raises.
   */
  function Predict(body: Value, classify: Value -> Prediction): Outcome<Response>
  {
    if !body.Object? then Raised(AttributeError("get"))
    else
      var data := if "data" in body.fields then body.fields["data"] else List([]);
      var prediction := classify(data);
      Returned(Json(Ok, Object(map[
        "result" := Str(ResultText(prediction.prediction)),
        "probability" := prediction.probability])))
  }

  /**
   * The label mapping: the result is "Normal" exactly when the classifier's
   * label equals 0 (the integer 0 or False), and the probability is passed
   * through; a body without "data" is classified as the empty list.
   */
  lemma PredictMapsLabel(body: Value, classify: Value -> Prediction)
    requires body.Object?
    ensures var data := if "data" in body.fields then body.fields["data"] else List([]);
      var r := Predict(body, classify);
      && r.Returned? && r.value.Json? && r.value.status == Ok
      && (r.value.body.fields["result"] == Str("Normal") <==> EqualsZero(classify(data).prediction))
      && (r.value.body.fields["result"] == Str("Threat Detected") <==> !EqualsZero(classify(data).prediction))
      && r.value.body.fields["probability"] == classify(data).probability
  {
  }

  /** A "threat" label is not 0, so the prediction endpoint reports it as a threat. */
  lemma ThreatLabelIsThreatDetected(v: Value)
    requires IsThreatLabel(v)
    ensures ResultText(v) == "Threat Detected"
  {
  }

  // ---------------------------------------------------------------------
  // /api/upload

  /** What one upload request does: its answer, whether it opens the log, and the alert it appends. */
  datatype UploadEffect = UploadEffect(response: Outcome<Response>, opensLog: bool, alert: Option<AlertRecord>)

  /** The answer to an empty body. */
  const NoDataResponse := Json(BadRequest, Object(map["error" := Str("No data provided")]))

  /**
   * `upload_data()`. An empty or missing body is refused. Otherwise the body
   * is preprocessed and classified; on "threat" the log is opened for
   * appending and then the alert is built with `data.get`, which raises
   * (after the file was opened) when the body is not an object.
   */
  function Upload(body: Value, preprocess: Value -> Value, classify: Value -> Prediction, now: string): UploadEffect
  {
    if !Truthy(body) then UploadEffect(Returned(NoDataResponse), false, None)
    else
      var prediction := classify(preprocess(body));
      var answer := Returned(Json(Ok, Object(map[
        "prediction" := prediction.prediction,
        "probability" := prediction.probability])));
      if !IsThreatLabel(prediction.prediction) then UploadEffect(answer, false, None)
      else if !body.Object? then UploadEffect(Raised(AttributeError("get")), true, None)
      else
        var alert := AlertRecord(now, Get(body.fields, "src_ip"), Get(body.fields, "dest_ip"),
          prediction.prediction, prediction.probability);
        UploadEffect(answer, true, Some(alert))
  }

  /** `upload_data()` against the alert log: the log gains exactly the alert `Upload` describes. */
  method UploadData(log: AlertFile, body: Value, preprocess: Value -> Value,
                    classify: Value -> Prediction, now: string)
      returns (r: Outcome<Response>)
    requires log.Valid()
    modifies log
    ensures log.Valid()
    ensures r == Upload(body, preprocess, classify, now).response
    ensures log.present == (old(log.present) || Upload(body, preprocess, classify, now).opensLog)
    ensures log.records == old(log.records) + match Upload(body, preprocess, classify, now).alert
      case Some(a) => [a]
      case None => []
  {
    if !Truthy(body) {
      return Returned(NoDataResponse);
    }
    var processedData := preprocess(body);
    var prediction := classify(processedData);
    if IsThreatLabel(prediction.prediction) {
      log.Open();
      if !body.Object? {
        return Raised(AttributeError("get"));
      }
      var alert := AlertRecord(now, Get(body.fields, "src_ip"), Get(body.fields, "dest_ip"),
        prediction.prediction, prediction.probability);
      log.Append(alert);
    }
    return Returned(Json(Ok, Object(map[
      "prediction" := prediction.prediction,
      "probability" := prediction.probability])));
  }

  /** An empty or missing body gets the 400 answer, and nothing is classified, opened or written. */
  lemma EmptyUploadRefused(body: Value, p1: Value -> Value, p2: Value -> Value,
                           c1: Value -> Prediction, c2: Value -> Prediction, now: string)
    requires !Truthy(body)
    ensures Upload(body, p1, c1, now) == Upload(body, p2, c2, now)
    ensures Upload(body, p1, c1, now).response == Returned(Json(400, Object(map["error" := Str("No data provided")])))
    ensures !Upload(body, p1, c1, now).opensLog && Upload(body, p1, c1, now).alert.None?
  {
  }

  /**
   * An alert is appended exactly when the label is "threat" (for a non-empty
   * object body); it carries the request's addresses, None for an absent one.
   */
  lemma UploadAlertIffThreat(body: Value, preprocess: Value -> Value, classify: Value -> Prediction, now: string)
    requires Truthy(body) && body.Object?
    ensures var e := Upload(body, preprocess, classify, now);
      && (e.alert.Some? <==> IsThreatLabel(classify(preprocess(body)).prediction))
      && (e.alert.Some? ==>
        && e.alert.value.srcIp == (if "src_ip" in body.fields then body.fields["src_ip"] else Null)
        && e.alert.value.destIp == (if "dest_ip" in body.fields then body.fields["dest_ip"] else Null)
        && e.alert.value.prediction == Str("threat")
        && e.alert.value.timestamp == now)
  {
  }

  /** Whenever the upload answers normally, it answers with the prediction and probability it computed. */
  lemma UploadReportsPrediction(body: Value, preprocess: Value -> Value, classify: Value -> Prediction, now: string)
    requires Truthy(body)
    requires Upload(body, preprocess, classify, now).response.Returned?
    ensures var r := Upload(body, preprocess, classify, now).response.value;
      && r == Json(200, r.body) && r.body.Object?
      && r.body.fields.Keys == {"prediction", "probability"}
      && r.body.fields["prediction"] == classify(preprocess(body)).prediction
      && r.body.fields["probability"] == classify(preprocess(body)).probability
  {
  }

  /** Every appended alert is one the alerts endpoint can read back. */
  lemma UploadAlertReadable(body: Value, preprocess: Value -> Value, classify: Value -> Prediction, now: string)
    requires Upload(body, preprocess, classify, now).alert.Some?
    ensures var a := Upload(body, preprocess, classify, now).alert.value;
      FromValue(ToValue(a)) == Some(a)
  {
    ReadBackWritten(Upload(body, preprocess, classify, now).alert.value);
  }

  // ---------------------------------------------------------------------
  // /api/alerts

  /** `get_alerts()`: every line of the log parsed, in file order; no file gives the empty list. */
  function GetAlerts(log: AlertFile): (r: Response)
    reads log
    ensures r.Json? && r.status == Ok && r.body.List?
    ensures !log.present ==> r.body.items == []
    ensures log.present ==> |r.body.items| == |log.records|
    ensures log.present ==> forall i :: 0 <= i < |log.records| ==> FromValue(r.body.items[i]) == Some(log.records[i])
  {
    LinesReadBack(log.records);
    if log.present then Json(Ok, List(Lines(log.records))) else Json(Ok, List([]))
  }

  // ---------------------------------------------------------------------
  // /api/update_model

  /**
   * The retraining collaborator: `update_model` is not part of this model,
   * so the object only records the bodies it was handed.
   */
  class Trainer {
    var received: seq<Value>

    constructor()
      ensures received == []
    {
      received := [];
    }
  }

  /** `train_model()`: an empty body is refused without retraining; otherwise the body goes to `update_model`. */
  method TrainModel(trainer: Trainer, body: Value) returns (r: Response)
    modifies trainer
    ensures r == TrainAnswer(body)
    ensures trainer.received == old(trainer.received) + (if Truthy(body) then [body] else [])
  {
    if !Truthy(body) {
      return Json(BadRequest, Object(map["error" := Str("No data provided for training")]));
    }
    trainer.received := trainer.received + [body];
    return Json(Ok, Object(map["message" := Str("Model updated successfully!")]));
  }

  /** The answer of the retraining endpoint. */
  function TrainAnswer(body: Value): (r: Response)
    ensures r.Json? && (r.status == 400 <==> !Truthy(body)) && (r.status == 200 <==> Truthy(body))
    ensures !Truthy(body) ==> r.body == Object(map["error" := Str("No data provided for training")])
    ensures Truthy(body) ==> r.body == Object(map["message" := Str("Model updated successfully!")])
  {
    if !Truthy(body) then Json(BadRequest, Object(map["error" := Str("No data provided for training")]))
    else Json(Ok, Object(map["message" := Str("Model updated successfully!")]))
  }
}
