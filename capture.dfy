/**
 * The capture callback: turning a captured packet into a feature record,
 * classifying it, and appending an alert to the capture log when the
 * classifier says "threat".
 *
 * A packet is a stack of layers (link, network, transport, ...), each a
 * dictionary of header fields. Reading a field of a layer looks in that
 * layer first and then in the layers it carries, as packet libraries
 * delegate attribute lookup to the payload.
 */
module Capture {
  import opened Common
  import opened AlertLog

  datatype Layer = Layer(fields: map<string, Value>)

  /** A captured packet: its layers, outermost first, and its length in bytes. */
  datatype Packet = Packet(layers: seq<Layer>, length: nat)

  /**
   * `layer.name` on layer i: the field of the first layer at or after i that
   * has it, or None when no such layer has it (an AttributeError).
   */
  function Lookup(layers: seq<Layer>, i: nat, name: string): (r: Option<Value>)
    decreases |layers| - i
    ensures r.Some? <==> exists j :: i <= j < |layers| && name in layers[j].fields
    ensures r.Some? ==>
      exists j ::
        && i <= j < |layers|
        && name in layers[j].fields
        && r.value == layers[j].fields[name]
        && forall m :: i <= m < j ==> name !in layers[m].fields
  {
    if i >= |layers| then None
    else if name in layers[i].fields then Some(layers[i].fields[name])
    else Lookup(layers, i + 1, name)
  }

  /** `hasattr(layer, name)` on layer i. */
  predicate HasAttr(layers: seq<Layer>, i: nat, name: string)
  {
    Lookup(layers, i, name).Some?
  }

  /** The dictionary `packet_to_dict` builds. A port the transport layer lacks is None (`Null`). */
  datatype PacketRecord = PacketRecord(
    srcIp: Value,
    destIp: Value,
    srcPort: Value,
    destPort: Value,
    protocol: Value,
    packetSize: nat)

  /**
   * `packet_to_dict(packet)`. The entries are evaluated in order: a missing
   * layer 1 or 2 raises IndexError, which is caught and gives None; a field
   * missing from layer 1 raises AttributeError, which is not caught; a
   * missing port is tested with `hasattr` first and becomes None.
   */
  function PacketToDict(p: Packet): Outcome<Option<PacketRecord>>
  {
    if |p.layers| < 2 then Returned(None)
    else
      var src := Lookup(p.layers, 1, "src");
      var dst := Lookup(p.layers, 1, "dst");
      if src.None? then Raised(AttributeError("src"))
      else if dst.None? then Raised(AttributeError("dst"))
      else if |p.layers| < 3 then Returned(None)
      else
        var sport := if HasAttr(p.layers, 2, "sport") then Lookup(p.layers, 2, "sport").value else Null;
        var dport := if HasAttr(p.layers, 2, "dport") then Lookup(p.layers, 2, "dport").value else Null;
        var proto := Lookup(p.layers, 1, "proto");
        if proto.None? then Raised(AttributeError("proto"))
        else Returned(Some(PacketRecord(src.value, dst.value, sport, dport, proto.value, p.length)))
  }

  /** A packet with fewer than three layers never yields a record: it yields None or a missing field. */
  lemma ShortPacketNoRecord(p: Packet)
    requires |p.layers| < 3
    ensures PacketToDict(p) == Returned(None) || PacketToDict(p).Raised?
    ensures |p.layers| < 2 ==> PacketToDict(p) == Returned(None)
  {
  }

  /**
   * A record describes the packet: addresses and protocol come from layer 1
   * (or what it carries), ports from layer 2 when present there and None
   * otherwise, and the size is the packet's length.
   */
  lemma RecordFields(p: Packet)
    requires PacketToDict(p).Returned? && PacketToDict(p).value.Some?
    ensures var r := PacketToDict(p).value.value;
      && |p.layers| >= 3
      && Some(r.srcIp) == Lookup(p.layers, 1, "src")
      && Some(r.destIp) == Lookup(p.layers, 1, "dst")
      && Some(r.protocol) == Lookup(p.layers, 1, "proto")
      && (if HasAttr(p.layers, 2, "sport") then Some(r.srcPort) == Lookup(p.layers, 2, "sport") else r.srcPort == Null)
      && (if HasAttr(p.layers, 2, "dport") then Some(r.destPort) == Lookup(p.layers, 2, "dport") else r.destPort == Null)
      && r.packetSize == p.length
  {
  }

  /** A packet that has the three layers and the three layer-1 fields always yields a record, whatever its ports. */
  lemma CompletePacketRecord(p: Packet)
    requires |p.layers| >= 3
    requires "src" in p.layers[1].fields && "dst" in p.layers[1].fields && "proto" in p.layers[1].fields
    ensures PacketToDict(p).Returned? && PacketToDict(p).value.Some?
    ensures PacketToDict(p).value.value.srcIp == p.layers[1].fields["src"]
    ensures PacketToDict(p).value.value.destIp == p.layers[1].fields["dst"]
    ensures PacketToDict(p).value.value.protocol == p.layers[1].fields["proto"]
  {
  }

  /** Only a missing layer-1 field raises. */
  lemma RaisesOnlyForMissingField(p: Packet)
    requires PacketToDict(p).Raised?
    ensures |p.layers| >= 2
    ensures PacketToDict(p).error in {AttributeError("src"), AttributeError("dst"), AttributeError("proto")}
    ensures exists name | name in ["src", "dst", "proto"] :: !HasAttr(p.layers, 1, name)
  {
    if Lookup(p.layers, 1, "src").None? {
      assert !HasAttr(p.layers, 1, ["src", "dst", "proto"][0]);
    } else if Lookup(p.layers, 1, "dst").None? {
      assert !HasAttr(p.layers, 1, ["src", "dst", "proto"][1]);
    } else {
      assert !HasAttr(p.layers, 1, ["src", "dst", "proto"][2]);
    }
  }

  /**
   * What `process_packet` does with one packet: the alert it appends, if any,
   * or the exception `packet_to_dict` raised. `classify` is `make_prediction`
   * with the loaded model, `toList` is `probability.tolist()`, and `now` is
   * the formatted current time.
   */
  function CaptureAlert(p: Packet, classify: PacketRecord -> Prediction, toList: Value -> Value, now: string)
    : Outcome<Option<AlertRecord>>
  {
    match PacketToDict(p)
    case Raised(e) => Raised(e)
    case Returned(None) => Returned(None)
    case Returned(Some(record)) =>
      var prediction := classify(record);
      if IsThreatLabel(prediction.prediction) then
        Returned(Some(AlertRecord(now, record.srcIp, record.destIp, prediction.prediction, toList(prediction.probability))))
      else
        Returned(None)
  }

  /**
   * `process_packet(packet)` against the capture log: the log grows by the
   * alert `CaptureAlert` describes and is otherwise unchanged.
   */
  method ProcessPacket(log: AlertFile, p: Packet, classify: PacketRecord -> Prediction,
                       toList: Value -> Value, now: string)
      returns (outcome: Outcome<Option<AlertRecord>>)
    requires log.Valid()
    modifies log
    ensures log.Valid()
    ensures outcome == CaptureAlert(p, classify, toList, now)
    ensures outcome.Returned? && outcome.value.Some? ==> log.present && log.records == old(log.records) + [outcome.value.value]
    ensures !(outcome.Returned? && outcome.value.Some?) ==> log.present == old(log.present) && log.records == old(log.records)
  {
    var packetData := PacketToDict(p);
    if packetData.Raised? {
      return Raised(packetData.error);
    }
    if packetData.value.Some? {
      var record := packetData.value.value;
      var prediction := classify(record);
      if IsThreatLabel(prediction.prediction) {
        log.Open();
        var alert := AlertRecord(now, record.srcIp, record.destIp, prediction.prediction, toList(prediction.probability));
        log.Append(alert);
        return Returned(Some(alert));
      }
    }
    return Returned(None);
  }

  /** Without a record the classifier plays no part: any two classifiers give the same outcome. */
  lemma NoRecordNoClassifier(p: Packet, c1: PacketRecord -> Prediction, c2: PacketRecord -> Prediction,
                             toList: Value -> Value, now: string)
    requires !(PacketToDict(p).Returned? && PacketToDict(p).value.Some?)
    ensures CaptureAlert(p, c1, toList, now) == CaptureAlert(p, c2, toList, now)
    ensures CaptureAlert(p, c1, toList, now).Returned? ==> CaptureAlert(p, c1, toList, now).value.None?
  {
  }

  /**
   * An alert is written exactly when the packet yields a record and the
   * classifier labels it "threat"; the alert carries the record's addresses
   * and the "threat" label.
   */
  lemma AlertIffThreat(p: Packet, classify: PacketRecord -> Prediction, toList: Value -> Value, now: string)
    ensures var out := CaptureAlert(p, classify, toList, now);
      (out.Returned? && out.value.Some?) <==>
      (PacketToDict(p).Returned? && PacketToDict(p).value.Some?
        && IsThreatLabel(classify(PacketToDict(p).value.value).prediction))
    ensures var out := CaptureAlert(p, classify, toList, now);
      out.Returned? && out.value.Some? ==>
        var record := PacketToDict(p).value.value;
        && out.value.value.srcIp == record.srcIp
        && out.value.value.destIp == record.destIp
        && out.value.value.prediction == Str("threat")
        && out.value.value.timestamp == now
  {
  }
}
