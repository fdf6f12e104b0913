/**
 * The live dashboard's state and its once-a-second tick: a new packet is
 * generated and analysed, the last 51 packets and the last 11 alerts are
 * kept, and two counters record how many packets were analysed and how many
 * were flagged.
 */
module Dashboard {
  import opened Common
  import opened NetworkAnalyzer

  /** `s.slice(-n)` for n > 0: the last n elements, or all of s when it is shorter. */
  function SliceLast<T>(s: seq<T>, n: nat): (r: seq<T>)
    requires n > 0
    ensures |r| == if |s| < n then |s| else n
    ensures forall i :: 0 <= i < |r| ==> r[i] == s[|s| - |r| + i]
  {
    if |s| <= n then s else s[|s| - n..]
  }

  /**
   * Keeping the last n + 1 of a list, then the last n of those and a new
   * element, is keeping the last n + 1 of the list with the element added:
   * the window slides by one.
   */
  lemma SlideWindow<T>(s: seq<T>, x: T, n: nat)
    requires n > 0
    ensures SliceLast(SliceLast(s, n + 1), n) + [x] == SliceLast(s + [x], n + 1)
  {
    if |s| <= n {
      assert SliceLast(s, n + 1) == s && SliceLast(s, n) == s;
      assert SliceLast(s + [x], n + 1) == s + [x];
    } else {
      var t := s[|s| - (n + 1)..];
      assert SliceLast(s, n + 1) == t;
      assert SliceLast(t, n) == t[1..] == s[|s| - n..];
      assert SliceLast(s + [x], n + 1) == (s + [x])[|s| - n..] == s[|s| - n..] + [x];
    }
  }

  /** The packets of a run that were flagged, in order: suspicious packets of that run, and no more of them than packets. */
  function Flagged(history: seq<NetworkPacket>): (r: seq<NetworkPacket>)
    ensures |r| <= |history|
    ensures forall p | p in r :: IsSuspicious(p) && p in history
  {
    if history == [] then []
    else
      var init := history[..|history| - 1];
      var last := history[|history| - 1];
      assert forall p | p in init :: p in history;
      Flagged(init) + (if IsSuspicious(last) then [last] else [])
  }

  /** A packet added to the run is flagged or not, and the earlier verdicts stay. */
  lemma FlaggedAppend(history: seq<NetworkPacket>, p: NetworkPacket)
    ensures Flagged(history + [p]) == Flagged(history) + (if IsSuspicious(p) then [p] else [])
  {
    assert (history + [p])[..|history|] == history;
  }

  /**
   * The windows are the last 51 packets and the last 11 alerts of the run;
   * the counters count every packet and every alert; each alert reports the
   * addresses of the flagged packet it was raised for.
   */
  ghost predicate Invariant(packets: seq<NetworkPacket>, alerts: seq<ThreatAlert>, stats: NetworkStats,
                            history: seq<NetworkPacket>, alertHistory: seq<ThreatAlert>)
  {
    && packets == SliceLast(history, 51)
    && alerts == SliceLast(alertHistory, 11)
    && stats.packetsAnalyzed == |history|
    && stats.threatsDetected == |alertHistory|
    && AlertsMatch(history, alertHistory)
  }

  /** Each alert of the run reports the addresses of the flagged packet it was raised for. */
  ghost predicate AlertsMatch(history: seq<NetworkPacket>, alertHistory: seq<ThreatAlert>)
  {
    Reports(alertHistory, Flagged(history))
  }

  /** The alerts and the packets pair up one to one, each alert carrying its packet's addresses. */
  predicate Reports(alerts: seq<ThreatAlert>, packets: seq<NetworkPacket>)
  {
    && |alerts| == |packets|
    && forall k :: 0 <= k < |alerts| ==>
         alerts[k].sourceIP == packets[k].sourceIP && alerts[k].destinationIP == packets[k].destinationIP
  }

  /** Adding a packet, and its alert exactly when it is flagged, keeps alerts and flagged packets in step. */
  lemma AlertsMatchStep(history: seq<NetworkPacket>, alertHistory: seq<ThreatAlert>,
                        packet: NetworkPacket, threat: Option<ThreatAlert>)
    requires AlertsMatch(history, alertHistory)
    requires threat.Some? <==> IsSuspicious(packet)
    requires threat.Some? ==>
      threat.value.sourceIP == packet.sourceIP && threat.value.destinationIP == packet.destinationIP
    ensures AlertsMatch(history + [packet], alertHistory + (if threat.Some? then [threat.value] else []))
  {
    FlaggedAppend(history, packet);
    var flagged := Flagged(history + [packet]);
    var alerts := alertHistory + (if threat.Some? then [threat.value] else []);
    assert |alerts| == |flagged|;
    forall k | 0 <= k < |alerts|
      ensures alerts[k].sourceIP == flagged[k].sourceIP && alerts[k].destinationIP == flagged[k].destinationIP
    {
      if k < |alertHistory| {
        assert alerts[k] == alertHistory[k];
        assert flagged[k] == Flagged(history)[k];
      } else {
        assert alerts[k] == threat.value;
        assert flagged[k] == packet;
      }
    }
  }

  /**
   * One tick keeps the invariant: the packet joins the run, and an alert
   * raised exactly for a flagged packet, with its addresses, joins the alerts.
   */
  lemma StepKeepsInvariant(packets: seq<NetworkPacket>, alerts: seq<ThreatAlert>, stats: NetworkStats,
                           history: seq<NetworkPacket>, alertHistory: seq<ThreatAlert>,
                           packet: NetworkPacket, threat: Option<ThreatAlert>, now: int,
                           packets': seq<NetworkPacket>, alerts': seq<ThreatAlert>, stats': NetworkStats,
                           history': seq<NetworkPacket>, alertHistory': seq<ThreatAlert>)
    requires Invariant(packets, alerts, stats, history, alertHistory)
    requires threat.Some? <==> IsSuspicious(packet)
    requires threat.Some? ==>
      threat.value.sourceIP == packet.sourceIP && threat.value.destinationIP == packet.destinationIP
    requires packets' == SliceLast(packets, 50) + [packet]
    requires alerts' == if threat.Some? then SliceLast(alerts, 10) + [threat.value] else alerts
    requires stats' == NetworkStats(stats.packetsAnalyzed + 1,
        if threat.Some? then stats.threatsDetected + 1 else stats.threatsDetected, now)
    requires history' == history + [packet]
    requires alertHistory' == alertHistory + (if threat.Some? then [threat.value] else [])
    ensures Invariant(packets', alerts', stats', history', alertHistory')
  {
    SlideWindow(history, packet, 50);
    assert packets' == SliceLast(history', 51);
    AlertsMatchStep(history, alertHistory, packet, threat);
    if threat.Some? {
      SlideWindow(alertHistory, threat.value, 10);
      assert alerts' == SliceLast(alertHistory', 11);
    } else {
      assert alertHistory' == alertHistory;
    }
  }

  /** The component's state: the two windows, the counters, and (ghost) every packet and alert so far. */
  class NetworkDashboard {
    var packets: seq<NetworkPacket>
    var alerts: seq<ThreatAlert>
    var stats: NetworkStats
    ghost var history: seq<NetworkPacket>
    ghost var alertHistory: seq<ThreatAlert>

    /** The dashboard invariant holds of the current state. */
    ghost predicate Valid()
      reads this
    {
      Invariant(packets, alerts, stats, history, alertHistory)
    }

    /** The state the component starts in. */
    constructor(now: int)
      ensures Valid()
      ensures packets == [] && alerts == [] && stats == NetworkStats(0, 0, now)
      ensures history == [] && alertHistory == []
    {
      packets := [];
      alerts := [];
      stats := NetworkStats(0, 0, now);
      history := [];
      alertHistory := [];
    }

    /**
     * One interval tick: generate a packet from the draws, analyse it, slide
     * the packet window, slide the alert window when an alert was raised,
     * and update the counters.
     */
    method Tick(packetId: string, packetTime: int, d: Draws, alertId: string, alertTime: int, now: int)
      requires Valid() && ValidDraws(d)
      modifies this
      ensures Valid()
      ensures var packet := GenerateNetworkPacket(packetId, packetTime, d);
        var threat := AnalyzePacket(packet, alertId, alertTime);
        && history == old(history) + [packet]
        && packets == SliceLast(old(packets), 50) + [packet]
        && alerts == (if threat.Some? then SliceLast(old(alerts), 10) + [threat.value] else old(alerts))
        && alertHistory == old(alertHistory) + (if threat.Some? then [threat.value] else [])
        && stats == NetworkStats(
             old(stats.packetsAnalyzed) + 1,
             if threat.Some? then old(stats.threatsDetected) + 1 else old(stats.threatsDetected),
             now)
    {
      var newPacket := GenerateNetworkPacket(packetId, packetTime, d);
      var threat := AnalyzePacket(newPacket, alertId, alertTime);
      AnalyzePacketAlerts(newPacket, alertId, alertTime);
      Record(newPacket, threat, now);
    }

    /** The state update of one tick, for a packet and the alert raised for it, if any. */
    method Record(newPacket: NetworkPacket, threat: Option<ThreatAlert>, now: int)
      requires Valid()
      requires threat.Some? <==> IsSuspicious(newPacket)
      requires threat.Some? ==>
        threat.value.sourceIP == newPacket.sourceIP && threat.value.destinationIP == newPacket.destinationIP
      modifies this
      ensures Valid()
      ensures history == old(history) + [newPacket]
      ensures packets == SliceLast(old(packets), 50) + [newPacket]
      ensures alerts == (if threat.Some? then SliceLast(old(alerts), 10) + [threat.value] else old(alerts))
      ensures alertHistory == old(alertHistory) + (if threat.Some? then [threat.value] else [])
      ensures stats == NetworkStats(
        old(stats.packetsAnalyzed) + 1,
        if threat.Some? then old(stats.threatsDetected) + 1 else old(stats.threatsDetected),
        now)
    {
      packets, alerts, stats, history, alertHistory :=
        SliceLast(packets, 50) + [newPacket],
        if threat.Some? then SliceLast(alerts, 10) + [threat.value] else alerts,
        NetworkStats(stats.packetsAnalyzed + 1,
          if threat.Some? then stats.threatsDetected + 1 else stats.threatsDetected, now),
        history + [newPacket],
        alertHistory + (if threat.Some? then [threat.value] else []);
      StepKeepsInvariant(old(packets), old(alerts), old(stats), old(history), old(alertHistory), newPacket, threat, now,
                         packets, alerts, stats, history, alertHistory);
    }
  }

  /**
   * What the invariant gives: at most 51 packets and 11 alerts are kept,
   * the newest last, and no more threats than packets are counted.
   */
  lemma InvariantBounds(packets: seq<NetworkPacket>, alerts: seq<ThreatAlert>, stats: NetworkStats,
                        history: seq<NetworkPacket>, alertHistory: seq<ThreatAlert>)
    requires Invariant(packets, alerts, stats, history, alertHistory)
    ensures |packets| <= 51 && |alerts| <= 11
    ensures stats.threatsDetected <= stats.packetsAnalyzed
    ensures history != [] ==> packets[|packets| - 1] == history[|history| - 1]
    ensures alertHistory != [] ==> alerts[|alerts| - 1] == alertHistory[|alertHistory| - 1]
  {
    assert |alertHistory| == |Flagged(history)|;
    if history != [] {
      var k := |packets| - 1;
      assert packets[k] == history[|history| - |packets| + k];
    }
    if alertHistory != [] {
      var k := |alerts| - 1;
      assert alerts[k] == alertHistory[|alertHistory| - |alerts| + k];
    }
  }

  /** The bounds hold of every dashboard state. */
  lemma ValidBounds(board: NetworkDashboard)
    requires board.Valid()
    ensures |board.packets| <= 51 && |board.alerts| <= 11
    ensures board.stats.threatsDetected <= board.stats.packetsAnalyzed
    ensures board.history != [] ==> board.packets[|board.packets| - 1] == board.history[|board.history| - 1]
    ensures board.alertHistory != [] ==> board.alerts[|board.alerts| - 1] == board.alertHistory[|board.alertHistory| - 1]
  {
    InvariantBounds(board.packets, board.alerts, board.stats, board.history, board.alertHistory);
  }
}
