/**
  The dashboard statistics over the device and alert tables, and the network
  view that lists each gateway device with the devices attached to it.
*/
module StatsApi {
  import opened Seqs
  import Json
  import opened LegacyModels

  /** The `devices` block of the dashboard; the percentage is exact, before Python rounds it to one decimal. */
  datatype DeviceCounts = DeviceCounts(total: nat, online: nat, offline: nat, gateways: nat, nodes: nat, onlinePercentage: real)

  datatype Dashboard = Dashboard(devices: DeviceCounts, activeAlerts: nat, criticalAlerts: nat, recentHeartbeats: nat)

  function AlertStatusIs(st: string): Alert -> bool {
    (x: Alert) => x.status == st
  }

  /** `status == 'active' and severity == 'critical'` */
  function ActiveCritical(x: Alert): bool {
    x.status == "active" && x.severity == "critical"
  }

  /** How far back a heartbeat counts as recent: five minutes. */
  const RecentWindow := 300

  /** A device seen at or after `since`; an unset `last_seen` compares as NULL and never qualifies. */
  function SeenSince(since: int): Device -> bool {
    (d: Device) => d.lastSeen.Some? && d.lastSeen.value >= since
  }

  /** `p` is `part` as a percentage of `whole`, and 0 when `whole` is 0. */
  predicate PercentOf(p: real, part: nat, whole: nat) {
    (whole == 0 ==> p == 0.0) && (whole > 0 ==> p * whole as real == part as real * 100.0)
  }

  /** `online / total * 100`, or 0 for an empty table. */
  function Percentage(part: nat, whole: nat): (p: real)
    requires part <= whole
    ensures PercentOf(p, part, whole)
    ensures 0.0 <= p <= 100.0
  {
    if whole == 0 then 0.0 else part as real * 100.0 / whole as real
  }

  /**
    `GET /stats/dashboard` at time `now`. Online and offline are exact statuses,
    so devices in any other status are in neither count; gateways and nodes
    likewise; critical alerts are the active ones of critical severity.
  */
  function DashboardStats(db: Db, now: int): (r: Dashboard)
    ensures var c := r.devices;
      c.total == |db.devices|
      && c.online + c.offline <= c.total
      && c.gateways + c.nodes <= c.total
      && PercentOf(c.onlinePercentage, c.online, c.total)
    ensures r.criticalAlerts <= r.activeAlerts <= |db.alerts|
    ensures r.recentHeartbeats <= |db.devices|
  {
    var ds := db.devices;
    var online := Count(ds, StatusIs("online"));
    var offline := Count(ds, StatusIs("offline"));
    CountsBounded(db);
    Dashboard(
      DeviceCounts(|ds|, online, offline, Count(ds, KindIs("gateway")), Count(ds, KindIs("node")), Percentage(online, |ds|)),
      Count(db.alerts, AlertStatusIs("active")),
      Count(db.alerts, ActiveCritical),
      Count(ds, SeenSince(now - RecentWindow)))
  }

  /** Exact statuses and types exclude each other, and critical active alerts are active alerts. */
  lemma CountsBounded(db: Db)
    ensures Count(db.devices, StatusIs("online")) + Count(db.devices, StatusIs("offline")) <= |db.devices|
    ensures Count(db.devices, KindIs("gateway")) + Count(db.devices, KindIs("node")) <= |db.devices|
    ensures Count(db.alerts, ActiveCritical) <= Count(db.alerts, AlertStatusIs("active"))
  {
    assert forall x :: !(StatusIs("online")(x) && StatusIs("offline")(x));
    CountDisjoint(db.devices, StatusIs("online"), StatusIs("offline"));
    assert forall x :: !(KindIs("gateway")(x) && KindIs("node")(x));
    CountDisjoint(db.devices, KindIs("gateway"), KindIs("node"));
    assert forall x :: ActiveCritical(x) ==> AlertStatusIs("active")(x);
    CountMono(db.alerts, ActiveCritical, AlertStatusIs("active"));
  }

  /** The positions of the devices whose `status` column is `st`. */
  function WithStatus(ds: seq<Device>, st: string): set<int> {
    set i | 0 <= i < |ds| && ds[i].status == Json.JStr(st)
  }

  /** The positions of the devices whose `type` column is `k`. */
  function WithKind(ds: seq<Device>, k: string): set<int> {
    set i | 0 <= i < |ds| && ds[i].kind == Json.JStr(k)
  }

  /** The positions of the devices last seen at or after `since`. */
  function SeenRows(ds: seq<Device>, since: int): set<int> {
    set i | 0 <= i < |ds| && ds[i].lastSeen.Some? && ds[i].lastSeen.value >= since
  }

  /** The positions of the active alerts, and of the active critical ones. */
  function ActiveRows(al: seq<Alert>, criticalOnly: bool): set<int> {
    set i | 0 <= i < |al| && al[i].status == "active" && (criticalOnly ==> al[i].severity == "critical")
  }

  /** The devices with status `st` are as many as the positions holding one. */
  lemma StatusCount(ds: seq<Device>, st: string)
    ensures Count(ds, StatusIs(st)) == |WithStatus(ds, st)|
  {
    CountIsPositions(ds, StatusIs(st));
    assert Positions(ds, StatusIs(st), |ds|) == WithStatus(ds, st);
  }

  /** The devices of type `k` are as many as the positions holding one. */
  lemma KindCount(ds: seq<Device>, k: string)
    ensures Count(ds, KindIs(k)) == |WithKind(ds, k)|
  {
    CountIsPositions(ds, KindIs(k));
    assert Positions(ds, KindIs(k), |ds|) == WithKind(ds, k);
  }

  /** The devices seen since `since` are as many as the positions holding one. */
  lemma SeenCount(ds: seq<Device>, since: int)
    ensures Count(ds, SeenSince(since)) == |SeenRows(ds, since)|
  {
    CountIsPositions(ds, SeenSince(since));
    assert Positions(ds, SeenSince(since), |ds|) == SeenRows(ds, since);
  }

  /** The active, and the active critical, alerts are as many as the positions holding one. */
  lemma AlertCounts(al: seq<Alert>)
    ensures Count(al, AlertStatusIs("active")) == |ActiveRows(al, false)|
    ensures Count(al, ActiveCritical) == |ActiveRows(al, true)|
  {
    CountIsPositions(al, AlertStatusIs("active"));
    assert Positions(al, AlertStatusIs("active"), |al|) == ActiveRows(al, false);
    CountIsPositions(al, ActiveCritical);
    assert Positions(al, ActiveCritical, |al|) == ActiveRows(al, true);
  }

  /**
    Each dashboard figure is the number of rows its query selects: the devices
    of exactly that status or type, the active and the active critical alerts,
    and the devices seen within the last five minutes.
  */
  lemma DashboardCountsExact(db: Db, now: int)
    ensures var r := DashboardStats(db, now); var c := r.devices; var ds := db.devices;
      c.online == |WithStatus(ds, "online")| && c.offline == |WithStatus(ds, "offline")|
      && c.gateways == |WithKind(ds, "gateway")| && c.nodes == |WithKind(ds, "node")|
      && r.activeAlerts == |ActiveRows(db.alerts, false)| && r.criticalAlerts == |ActiveRows(db.alerts, true)|
      && r.recentHeartbeats == |SeenRows(ds, now - RecentWindow)|
  {
    StatusCount(db.devices, "online");
    StatusCount(db.devices, "offline");
    KindCount(db.devices, "gateway");
    KindCount(db.devices, "node");
    AlertCounts(db.alerts);
    SeenCount(db.devices, now - RecentWindow);
  }

  /** The positions of the devices attached to device `id`, or of those of them that are online. */
  function AttachedRows(ds: seq<Device>, id: int, onlineOnly: bool): set<int> {
    set i | 0 <= i < |ds| && ds[i].gatewayId == Json.JInt(id) && (onlineOnly ==> ds[i].status == Json.JStr("online"))
  }

  /** The devices attached to a gateway, and the online ones among them, are as many as the positions holding one. */
  lemma AttachedCounts(ds: seq<Device>, id: int)
    ensures |Attached(ds, id)| == |AttachedRows(ds, id, false)|
    ensures Count(Attached(ds, id), StatusIs("online")) == |AttachedRows(ds, id, true)|
  {
    CountIsPositions(ds, AttachedTo(id));
    assert Positions(ds, AttachedTo(id), |ds|) == AttachedRows(ds, id, false);
    CountFilter(ds, AttachedTo(id), StatusIs("online"));
    CountIsPositions(ds, Both(AttachedTo(id), StatusIs("online")));
    assert Positions(ds, Both(AttachedTo(id), StatusIs("online")), |ds|) == AttachedRows(ds, id, true);
  }

  /** One entry of the network view. */
  datatype NetworkEntry = NetworkEntry(gateway: Device, nodes: seq<Device>, nodeCount: nat, onlineCount: nat)

  /** The entry of one gateway device: the devices attached to it and how many of them are online. */
  function Entry(ds: seq<Device>, gw: Device): (e: NetworkEntry)
    ensures e.gateway == gw && e.nodeCount == |e.nodes| && e.onlineCount <= e.nodeCount
    ensures forall d :: d in e.nodes <==> d in ds && d.gatewayId == Json.JInt(gw.id)
    ensures e.nodeCount == |AttachedRows(ds, gw.id, false)| && e.onlineCount == |AttachedRows(ds, gw.id, true)|
  {
    AttachedCounts(ds, gw.id);
    var nodes := Attached(ds, gw.id);
    NetworkEntry(gw, nodes, |nodes|, Count(nodes, StatusIs("online")))
  }

  datatype Network = Network(entries: seq<NetworkEntry>, totalGateways: nat)

  /** The gateway device of each entry, in order. */
  function EntryGateways(es: seq<NetworkEntry>): (gs: seq<Device>)
    ensures |gs| == |es| && forall i :: 0 <= i < |es| ==> gs[i] == es[i].gateway
  {
    seq(|es|, i requires 0 <= i < |es| => es[i].gateway)
  }

  /** A device of type `gateway` survives the type filter. */
  lemma GatewayKept(ds: seq<Device>, d: Device)
    requires d in ds && d.kind == Json.JStr("gateway")
    ensures d in Filter(ds, KindIs("gateway"))
  {
    var k :| 0 <= k < |ds| && ds[k] == d;
    assert KindIs("gateway")(ds[k]);
  }

  /** The gateway devices, in table order, are every gateway device of the table. */
  lemma GatewaysInOrder(ds: seq<Device>)
    ensures IsSubsequence(Filter(ds, KindIs("gateway")), ds)
    ensures forall d :: d in ds && d.kind == Json.JStr("gateway") ==> d in Filter(ds, KindIs("gateway"))
  {
    FilterSubsequence(ds, KindIs("gateway"));
    forall d | d in ds && d.kind == Json.JStr("gateway") ensures d in Filter(ds, KindIs("gateway")) {
      GatewayKept(ds, d);
    }
  }

  /** `GET /stats/network`: one entry per gateway device, in table order. */
  function NetworkStats(db: Db): (r: Network)
    ensures |r.entries| == Count(db.devices, KindIs("gateway")) == r.totalGateways
    ensures IsSubsequence(EntryGateways(r.entries), db.devices)
    ensures forall d :: d in db.devices && d.kind == Json.JStr("gateway") ==> d in EntryGateways(r.entries)
    ensures forall i :: 0 <= i < |r.entries| ==>
      var e := r.entries[i];
      e.gateway in db.devices && e.gateway.kind == Json.JStr("gateway")
      && e.nodeCount == |e.nodes| && e.onlineCount <= e.nodeCount
      && (forall d :: d in e.nodes <==> d in db.devices && d.gatewayId == Json.JInt(e.gateway.id))
      && e.nodeCount == |AttachedRows(db.devices, e.gateway.id, false)|
      && e.onlineCount == |AttachedRows(db.devices, e.gateway.id, true)|
  {
    var gws := Filter(db.devices, KindIs("gateway"));
    var entries := seq(|gws|, i requires 0 <= i < |gws| => Entry(db.devices, gws[i]));
    assert EntryGateways(entries) == gws;
    GatewaysInOrder(db.devices);
    Network(entries, |gws|)
  }
}
