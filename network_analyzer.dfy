/**
 * The browser-side packet simulator and rule-based analyser: a generated
 * packet is flagged when it resets a connection, is larger than 1400 bytes,
 * or opens an HTTP connection.
 *
 * `Math.random()` draws are parameters in [0, 1); ids and `Date.now()` are
 * parameters too.
 */
module NetworkAnalyzer {
  import opened Common

  datatype NetworkPacket = NetworkPacket(
    id: string,
    timestamp: int,
    sourceIP: string,
    destinationIP: string,
    protocol: string,
    size: int,
    flags: seq<string>)

  datatype Severity = Low | Medium | High

  datatype ThreatAlert = ThreatAlert(
    id: string,
    timestamp: int,
    severity: Severity,
    description: string,
    sourceIP: string,
    destinationIP: string,
    action: string)

  datatype NetworkStats = NetworkStats(packetsAnalyzed: nat, threatsDetected: nat, lastUpdated: int)

  const Protocols: seq<string> := ["TCP", "UDP", "HTTP", "HTTPS"]
  const Flags: seq<string> := ["SYN", "ACK", "FIN", "RST", "PSH"]

  const AlertDescription: string := "Suspicious network activity detected"
  const BlockAction: string := "Block connection"

  // ---------------------------------------------------------------------
  // analyzePacket

  /** The three rules of `analyzePacket`. */
  predicate IsSuspicious(packet: NetworkPacket)
  {
    || "RST" in packet.flags
    || packet.size > 1400
    || (packet.protocol == "HTTP" && "SYN" in packet.flags)
  }

  /** `analyzePacket(packet)`, with the alert's id and time as parameters. */
  function AnalyzePacket(packet: NetworkPacket, id: string, now: int): (alert: Option<ThreatAlert>)
  {
    if IsSuspicious(packet) then
      Some(ThreatAlert(id, now, High, AlertDescription, packet.sourceIP, packet.destinationIP, BlockAction))
    else
      None
  }

  /**
   * An alert is raised exactly when the packet resets, is over 1400 bytes, or
   * is an HTTP SYN; its addresses are the packet's and the rest is fixed.
   */
  lemma AnalyzePacketAlerts(packet: NetworkPacket, id: string, now: int)
    ensures AnalyzePacket(packet, id, now).Some? <==>
      ("RST" in packet.flags || packet.size > 1400 || (packet.protocol == "HTTP" && "SYN" in packet.flags))
    ensures AnalyzePacket(packet, id, now).Some? ==>
      var a := AnalyzePacket(packet, id, now).value;
      && a.sourceIP == packet.sourceIP
      && a.destinationIP == packet.destinationIP
      && a.severity == High
      && a.description == "Suspicious network activity detected"
      && a.action == "Block connection"
      && a.id == id && a.timestamp == now
  {
  }

  /** The size rule is strict: 1400 bytes alone is not suspicious, 1401 is. */
  lemma SizeBoundary(packet: NetworkPacket, id: string, now: int)
    requires "RST" !in packet.flags && !(packet.protocol == "HTTP" && "SYN" in packet.flags)
    ensures packet.size == 1400 ==> AnalyzePacket(packet, id, now) == None
    ensures packet.size == 1401 ==> AnalyzePacket(packet, id, now).Some?
  {
  }

  /** The protocol rule compares whole names: an HTTPS SYN of ordinary size is not flagged. */
  lemma HttpsSynNotFlagged(packet: NetworkPacket, id: string, now: int)
    requires packet.protocol == "HTTPS" && packet.flags == ["SYN"] && packet.size <= 1400
    ensures AnalyzePacket(packet, id, now) == None
  {
    assert "HTTPS" != "HTTP" by { assert |"HTTPS"| != |"HTTP"|; }
    assert "RST" != "SYN" by { assert "RST"[0] != "SYN"[0]; }
  }

  // ---------------------------------------------------------------------
  // generateNetworkPacket

  /** `Math.floor(r * n)` for a draw r in [0, 1): an index below n. */
  function Pick(r: real, n: nat): (k: nat)
    requires 0.0 <= r < 1.0 && n > 0
    ensures k < n
  {
    assert 0.0 <= r * n as real < n as real by {
      assert n as real - r * n as real == (1.0 - r) * n as real;
    }
    (r * n as real).Floor
  }

  /** Every index below n is drawn by some r. */
  lemma PickReaches(k: nat, n: nat)
    requires k < n
    ensures 0.0 <= k as real / n as real < 1.0
    ensures Pick(k as real / n as real, n) == k
  {
    var r := k as real / n as real;
    assert r * n as real == k as real;
  }

  /** The decimal digits of n, as JavaScript writes an integer into a string. */
  function Decimal(n: nat): (s: string)
    ensures |s| >= 1
    ensures forall i :: 0 <= i < |s| ==> '0' <= s[i] <= '9'
  {
    var last := [('0' as int + n % 10) as char];
    if n < 10 then last else Decimal(n / 10) + last
  }

  /** The number a string of decimal digits denotes. */
  function DigitsValue(s: string): int
  {
    if s == [] then 0 else 10 * DigitsValue(s[..|s| - 1]) + (s[|s| - 1] as int - '0' as int)
  }

  /** The digits written for n denote n. */
  lemma {:induction false} DecimalDenotes(n: nat)
    ensures DigitsValue(Decimal(n)) == n
  {
    var s := Decimal(n);
    if n >= 10 {
      DecimalDenotes(n / 10);
      assert s[..|s| - 1] == Decimal(n / 10);
    }
  }

  /** The draws one packet is made from, each in [0, 1). */
  datatype Draws = Draws(src1: real, src2: real, dst1: real, dst2: real, protocol: real, size: real, flag: real)

  predicate ValidDraws(d: Draws)
  {
    && 0.0 <= d.src1 < 1.0 && 0.0 <= d.src2 < 1.0
    && 0.0 <= d.dst1 < 1.0 && 0.0 <= d.dst2 < 1.0
    && 0.0 <= d.protocol < 1.0 && 0.0 <= d.size < 1.0 && 0.0 <= d.flag < 1.0
  }

  /** `generateNetworkPacket()`, with the id, the time and the random draws as parameters. */
  function GenerateNetworkPacket(id: string, now: int, d: Draws): NetworkPacket
    requires ValidDraws(d)
  {
    NetworkPacket(
      id,
      now,
      "192.168." + Decimal(Pick(d.src1, 255)) + "." + Decimal(Pick(d.src2, 255)),
      "10.0." + Decimal(Pick(d.dst1, 255)) + "." + Decimal(Pick(d.dst2, 255)),
      Protocols[Pick(d.protocol, |Protocols|)],
      Pick(d.size, 1500),
      [Flags[Pick(d.flag, |Flags|)]])
  }

  /**
   * A generated packet is between 0 and 1499 bytes, has one of the four
   * protocols and exactly one of the five flags, and its addresses are in
   * 192.168.0.0/16 and 10.0.0.0/16 with octets below 255.
   */
  lemma GeneratedPacketRanges(id: string, now: int, d: Draws)
    requires ValidDraws(d)
    ensures var p := GenerateNetworkPacket(id, now, d);
      && 0 <= p.size <= 1499
      && p.protocol in ["TCP", "UDP", "HTTP", "HTTPS"]
      && |p.flags| == 1 && p.flags[0] in ["SYN", "ACK", "FIN", "RST", "PSH"]
      && p.id == id && p.timestamp == now
    ensures exists a: nat, b: nat ::
      && a < 255 && b < 255
      && GenerateNetworkPacket(id, now, d).sourceIP == "192.168." + Decimal(a) + "." + Decimal(b)
    ensures exists a: nat, b: nat ::
      && a < 255 && b < 255
      && GenerateNetworkPacket(id, now, d).destinationIP == "10.0." + Decimal(a) + "." + Decimal(b)
  {
  }

  /** Every size from 0 to 1499 can be generated. */
  lemma EverySizeGenerated(id: string, now: int, d: Draws, size: nat)
    requires ValidDraws(d) && size < 1500
    ensures ValidDraws(d.(size := size as real / 1500.0))
    ensures GenerateNetworkPacket(id, now, d.(size := size as real / 1500.0)).size == size
  {
    PickReaches(size, 1500);
  }

  /** A generated packet is flagged exactly when its flag is RST, it is over 1400 bytes, or it is an HTTP SYN. */
  lemma GeneratedPacketVerdict(id: string, now: int, d: Draws, alertId: string, alertTime: int)
    requires ValidDraws(d)
    ensures var p := GenerateNetworkPacket(id, now, d);
      AnalyzePacket(p, alertId, alertTime).Some? <==>
        (p.flags[0] == "RST" || p.size > 1400 || (p.protocol == "HTTP" && p.flags[0] == "SYN"))
  {
    var p := GenerateNetworkPacket(id, now, d);
    assert p.flags == [p.flags[0]];
  }
}
