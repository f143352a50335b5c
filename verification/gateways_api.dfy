/**
  The original gateway endpoints, which read gateways out of the device table:
  the listing with per-gateway node counts, and the nodes of one gateway.
*/
module GatewaysApi {
  import opened Seqs
  import Json
  import Http
  import opened LegacyModels
  import StatsApi

  /** A gateway device with the `node_count` and `online_nodes` fields added to it. */
  datatype GatewayRow = GatewayRow(gateway: Device, nodeCount: nat, onlineNodes: nat)

  datatype GatewayList = GatewayList(gateways: seq<GatewayRow>, total: nat)

  /** A gateway device and the counts of the devices attached to it. */
  function Row(ds: seq<Device>, gw: Device): (g: GatewayRow)
    ensures g.gateway == gw && g.nodeCount == |Attached(ds, gw.id)| && g.onlineNodes <= g.nodeCount
    ensures g.nodeCount == |StatsApi.AttachedRows(ds, gw.id, false)| && g.onlineNodes == |StatsApi.AttachedRows(ds, gw.id, true)|
  {
    StatsApi.AttachedCounts(ds, gw.id);
    var nodes := Attached(ds, gw.id);
    GatewayRow(gw, |nodes|, Count(nodes, StatusIs("online")))
  }

  /** `GET /gateways`: every device of type 'gateway', in table order, and how many there are. */
  function ListGateways(db: Db): (r: GatewayList)
    ensures r.total == |r.gateways| == Count(db.devices, KindIs("gateway"))
    ensures forall i :: 0 <= i < |r.gateways| ==>
      var g := r.gateways[i];
      g.gateway in db.devices && g.gateway.kind == Json.JStr("gateway")
      && g.nodeCount == |Attached(db.devices, g.gateway.id)|
      && g.onlineNodes <= g.nodeCount
      && g.nodeCount == |StatsApi.AttachedRows(db.devices, g.gateway.id, false)|
      && g.onlineNodes == |StatsApi.AttachedRows(db.devices, g.gateway.id, true)|
    ensures forall d :: d in db.devices && d.kind == Json.JStr("gateway") ==>
      exists i :: 0 <= i < |r.gateways| && r.gateways[i].gateway == d
  {
    var gws := Filter(db.devices, KindIs("gateway"));
    var rows := seq(|gws|, i requires 0 <= i < |gws| => Row(db.devices, gws[i]));
    EveryGatewayListed(db.devices, rows);
    GatewayList(rows, |rows|)
  }

  /** Rows built one per filtered gateway leave no gateway device out. */
  lemma EveryGatewayListed(ds: seq<Device>, rows: seq<GatewayRow>)
    requires |rows| == |Filter(ds, KindIs("gateway"))|
    requires forall i :: 0 <= i < |rows| ==> rows[i].gateway == Filter(ds, KindIs("gateway"))[i]
    ensures forall d :: d in ds && d.kind == Json.JStr("gateway") ==>
      exists i :: 0 <= i < |rows| && rows[i].gateway == d
  {
    var gws := Filter(ds, KindIs("gateway"));
    forall d | d in ds && d.kind == Json.JStr("gateway")
      ensures exists i :: 0 <= i < |rows| && rows[i].gateway == d
    {
      StatsApi.GatewayKept(ds, d);
      var j :| 0 <= j < |gws| && gws[j] == d;
      assert rows[j].gateway == d;
    }
  }

  /** The gateway listing and the network view of the statistics agree on every gateway's counts. */
  lemma ListingMatchesNetwork(db: Db)
    ensures var l := ListGateways(db).gateways; var n := StatsApi.NetworkStats(db).entries;
      |l| == |n|
      && forall i :: 0 <= i < |l| ==>
        l[i].gateway == n[i].gateway && l[i].nodeCount == n[i].nodeCount && l[i].onlineNodes == n[i].onlineCount
  {
  }

  const NotAGateway := "Not a gateway device"

  /** The nodes of one gateway and the `total` field. */
  datatype GatewayNodes = GatewayNodes(gateway: Device, nodes: seq<Device>, total: nat)

  /** `GET /gateways/<id>/nodes`: 404 for an unknown device, 400 for a device that is not a gateway. */
  function NodesOfGateway(db: Db, id: int): (a: Http.Outcome<GatewayNodes>)
    ensures Find(db.devices, DevicePk, id).None? <==> a == Http.Failure(404, NotFound)
    ensures a == Http.Failure(400, NotAGateway) <==>
      Find(db.devices, DevicePk, id).Some? && db.devices[Find(db.devices, DevicePk, id).value].kind != Json.JStr("gateway")
    ensures a.Success? ==>
      a.code == 200 && a.value.gateway.id == id && a.value.total == |a.value.nodes|
      && (forall d :: d in a.value.nodes <==> d in db.devices && d.gatewayId == Json.JInt(id))
  {
    match Find(db.devices, DevicePk, id)
    case None => Http.Failure(404, NotFound)
    case Some(i) =>
      var g := db.devices[i];
      if g.kind != Json.JStr("gateway") then Http.Failure(400, NotAGateway)
      else
        var nodes := Attached(db.devices, id);
        Http.Success(200, GatewayNodes(g, nodes, |nodes|))
  }
}
