/**
 * The alert log: a file that the capture callback and the upload handler
 * open in append mode and write one JSON object per line to, and that the
 * alerts endpoint reads back. The model keeps records, not text: a line is
 * the JSON object of one record.
 */
module AlertLog {
  import opened Common

  /** One line of the log: the five keys both writers put in it. */
  datatype AlertRecord = AlertRecord(
    timestamp: string,
    srcIp: Value,
    destIp: Value,
    prediction: Value,
    probability: Value)

  /** The keys of an alert object. */
  const AlertKeys: set<string> := {"timestamp", "src_ip", "dest_ip", "prediction", "probability"}

  /** `json.dumps(alert)` as a value: the dictionary the writers build. */
  function ToValue(a: AlertRecord): (v: Value)
    ensures v.Object? && v.fields.Keys == AlertKeys
  {
    Object(map[
      "timestamp" := Str(a.timestamp),
      "src_ip" := a.srcIp,
      "dest_ip" := a.destIp,
      "prediction" := a.prediction,
      "probability" := a.probability])
  }

  /** Reading a line back as a record: the object must carry the five keys and a string timestamp. */
  function FromValue(v: Value): Option<AlertRecord>
  {
    if v.Object? && AlertKeys <= v.fields.Keys && v.fields["timestamp"].Str? then
      Some(AlertRecord(v.fields["timestamp"].s, v.fields["src_ip"], v.fields["dest_ip"],
        v.fields["prediction"], v.fields["probability"]))
    else
      None
  }

  /** A written line reads back as the record that was written. */
  lemma ReadBackWritten(a: AlertRecord)
    ensures FromValue(ToValue(a)) == Some(a)
  {
  }

  /** A line with exactly the five keys that reads back as a record is the line that record writes. */
  lemma WrittenFromRead(v: Value, a: AlertRecord)
    requires v.Object? && v.fields.Keys == AlertKeys
    requires FromValue(v) == Some(a)
    ensures ToValue(a) == v
  {
    assert ToValue(a).fields.Keys == v.fields.Keys;
  }

  /**
   * The log file. `present` says whether the file exists; opening it in
   * append mode creates it. `records` are its lines, oldest first.
   */
  class AlertFile {
    var present: bool
    var records: seq<AlertRecord>

    /** A file that does not exist holds no lines. */
    ghost predicate Valid()
      reads this
    {
      !present ==> records == []
    }

    /** No log file yet. */
    constructor()
      ensures Valid() && !present && records == []
    {
      present := false;
      records := [];
    }

    /** `open(path, "a")`: creates the file if needed and keeps what it holds. */
    method Open()
      requires Valid()
      modifies this
      ensures Valid() && present && records == old(records)
    {
      present := true;
    }

    /** `alert_log.write(json.dumps(a) + "\n")` on a file opened in append mode. */
    method Append(a: AlertRecord)
      requires Valid() && present
      modifies this
      ensures Valid() && present && records == old(records) + [a]
    {
      records := records + [a];
    }
  }

  /** The lines of the file as `json.loads` returns them, in file order. */
  function Lines(records: seq<AlertRecord>): (lines: seq<Value>)
    ensures |lines| == |records|
    ensures forall i :: 0 <= i < |records| ==> lines[i] == ToValue(records[i])
  {
    if records == [] then [] else Lines(records[..|records| - 1]) + [ToValue(records[|records| - 1])]
  }

  /** Every parsed line reads back as the record stored at the same position. */
  lemma LinesReadBack(records: seq<AlertRecord>)
    ensures forall i :: 0 <= i < |records| ==> FromValue(Lines(records)[i]) == Some(records[i])
  {
    forall i | 0 <= i < |records|
      ensures FromValue(Lines(records)[i]) == Some(records[i])
    {
      ReadBackWritten(records[i]);
    }
  }
}
