/**
  The IoT gateway endpoints: listing, creation with its defaults, the
  whitelisted update, deletion with its cascade, per-gateway node statistics
  and the command echo.
*/
module IotGatewaysApi {
  import opened Wrappers
  import opened Text
  import opened Seqs
  import Json
  import Http
  import opened IotModels
  import NodesApi

  /** The query parameters of `GET /iot-gateways`. */
  datatype GatewayQuery = GatewayQuery(siteId: Option<string>, status: Option<string>)

  predicate Matches(g: Gateway, q: GatewayQuery) {
    (Http.Given(q.siteId) ==> SiteOf(g) == Json.JStr(q.siteId.value))
    && (Http.Given(q.status) ==> Json.Get(g.attrs, "status") == Json.JStr(q.status.value))
  }

  /** `GET /iot-gateways`: the gateway rows matching the site and status filters, each applied only when given. */
  function ListGateways(rows: seq<Gateway>, q: GatewayQuery): (r: seq<Gateway>)
    ensures forall i :: 0 <= i < |r| ==> r[i] in rows && Matches(r[i], q)
    ensures forall i :: 0 <= i < |rows| && Matches(rows[i], q) ==> rows[i] in r
    ensures IsSubsequence(r, rows) && |r| == Count(rows, Matching(q))
  {
    FilterSubsequence(rows, Matching(q));
    Filter(rows, Matching(q))
  }

  /** The query's conditions as a test on one row. */
  function Matching(q: GatewayQuery): Gateway -> bool {
    (g: Gateway) => Matches(g, q)
  }

  /** A gateway as `to_dict` shows it: the row, its node count, and its nodes when asked for. */
  datatype GatewayView = GatewayView(row: Gateway, nodeCount: nat, nodes: Option<seq<Node>>)

  /** A node of gateway `key`. */
  function OnGateway(key: Key): Node -> bool {
    (n: Node) => n.gatewayKey == key
  }

  /** The node table rows that belong to gateway `key` (`gateway.nodes`). */
  function NodesOf(rows: seq<Node>, key: Key): (r: seq<Node>)
    ensures forall i :: 0 <= i < |r| ==> r[i] in rows && r[i].gatewayKey == key
    ensures forall i :: 0 <= i < |rows| && rows[i].gatewayKey == key ==> rows[i] in r
  {
    Filter(rows, OnGateway(key))
  }

  /** The positions of the rows of gateway `key`. */
  function GatewayRows(rows: seq<Node>, key: Key): set<int> {
    set i | 0 <= i < |rows| && rows[i].gatewayKey == key
  }

  /** A gateway has as many nodes as the table has rows pointing at it. */
  lemma NodesOfCount(rows: seq<Node>, key: Key)
    ensures |NodesOf(rows, key)| == |GatewayRows(rows, key)|
  {
    CountIsPositions(rows, OnGateway(key));
    assert Positions(rows, OnGateway(key), |rows|) == GatewayRows(rows, key);
  }

  /** Read from the node table, a gateway's nodes are exactly the stored nodes that point at it. */
  lemma NodesOfTable(s: Store, rows: seq<Node>, key: Key)
    requires TableRows(s, rows)
    ensures forall i :: 0 <= i < |NodesOf(rows, key)| ==> NodesOf(rows, key)[i] in s.nodes.Values
    ensures forall k :: k in s.nodes && s.nodes[k].gatewayKey == key ==> s.nodes[k] in NodesOf(rows, key)
  {
    var r := NodesOf(rows, key);
    forall k | k in s.nodes && s.nodes[k].gatewayKey == key
      ensures s.nodes[k] in r
    {
      var i :| 0 <= i < |rows| && rows[i] == s.nodes[k];
    }
  }

  /**
    `GET /iot-gateways/<id>`: the nodes are listed only when `include_nodes`
    spells "true" in some mix of cases; it reads as "false" when absent. The
    node count is always there.
  */
  function GetGateway(s: Store, rows: seq<Node>, key: Key, includeNodes: Option<string>): (a: Http.Outcome<GatewayView>)
    requires TableRows(s, rows)
    ensures key !in s.gateways ==> a == Http.Failure(404, NotFound)
    ensures key in s.gateways ==>
      a.Success? && a.code == 200 && a.value.row == s.gateways[key] && a.value.nodeCount == |GatewayRows(rows, key)|
    ensures a.Success? ==> (a.value.nodes.Some? <==> includeNodes.Some? && SaysTrue(includeNodes.value))
    ensures a.Success? && a.value.nodes.Some? ==>
      |a.value.nodes.value| == a.value.nodeCount
      && (forall i :: 0 <= i < |a.value.nodes.value| ==>
            a.value.nodes.value[i].gatewayKey == key && a.value.nodes.value[i] in s.nodes.Values)
      && (forall k :: k in s.nodes && s.nodes[k].gatewayKey == key ==> s.nodes[k] in a.value.nodes.value)
  {
    if key !in s.gateways then Http.Failure(404, NotFound)
    else
      var mine := NodesOf(rows, key);
      NodesOfCount(rows, key);
      NodesOfTable(s, rows, key);
      Http.Success(200, GatewayView(s.gateways[key], |mine|,
        if SaysTrue(includeNodes.GetOr("false")) then Some(mine) else None))
  }

  /** An absent `include_nodes` parameter leaves the nodes out. */
  lemma NodesLeftOutByDefault(s: Store, rows: seq<Node>, key: Key)
    requires TableRows(s, rows) && key in s.gateways
    ensures GetGateway(s, rows, key, None).value.nodes.None?
  {
    SaysTrueSpelling("false");
  }

  /** `GET /iot-gateways/<id>/nodes`: 404 for an unknown gateway, else the gateway's nodes. */
  function GatewayNodes(s: Store, rows: seq<Node>, key: Key): (a: Http.Outcome<seq<Node>>)
    requires TableRows(s, rows)
    ensures key !in s.gateways <==> a == Http.Failure(404, NotFound)
    ensures a.Success? ==>
      a.code == 200 && |a.value| == |GatewayRows(rows, key)|
      && (forall i :: 0 <= i < |a.value| ==> a.value[i].gatewayKey == key && a.value[i] in s.nodes.Values)
      && (forall k :: k in s.nodes && s.nodes[k].gatewayKey == key ==> s.nodes[k] in a.value)
  {
    if key !in s.gateways then Http.Failure(404, NotFound)
    else
      NodesOfCount(rows, key);
      NodesOfTable(s, rows, key);
      Http.Success(200, NodesOf(rows, key))
  }

  /** The node list of `/nodes` and the one inside the gateway details are the same list. */
  lemma GatewayNodesAgree(s: Store, rows: seq<Node>, key: Key, includeNodes: Option<string>)
    requires TableRows(s, rows) && key in s.gateways
    requires includeNodes.Some? && SaysTrue(includeNodes.value)
    ensures GetGateway(s, rows, key, includeNodes).value.nodes == Some(GatewayNodes(s, rows, key).value)
  {
  }

  const CreateRequired := "Name, gateway_id, and site_id are required"
  const SiteMissing := "Site not found"
  const CodeTaken := "Gateway ID already exists"

  /** The guard of `create_gateway`: a truthy `name`, `gateway_id` and `site_id`. */
  predicate CreateGuard(body: Option<Json.Object>) {
    !Json.Blank(body) && Json.Truthy(Json.Get(body.value, "name"))
    && Json.Truthy(Json.Get(body.value, "gateway_id")) && Json.Truthy(Json.Get(body.value, "site_id"))
  }

  /** Some gateway already carries this `gateway_id` code. */
  predicate CodeInUse(s: Store, code: Json.Json) {
    exists k :: k in s.gateways && s.gateways[k].gatewayId == code
  }

  /** The columns `create_gateway` fills in, besides `gateway_id`. */
  const CreatedColumns: set<string> := {
    "name", "site_id", "mac_address", "ip_address", "location", "firmware_version",
    "max_nodes", "mqtt_topic_prefix", "description", "notes", "status"
  }

  /** `apru40/gateway/<gateway_id>`, the default topic prefix. */
  function DefaultPrefix(code: Json.Json): string {
    "apru40/gateway/" + Json.Format(code)
  }

  /** The column default of a gateway column, null for a column without one. */
  function ColumnDefault(column: string): Json.Json {
    if column == "status" then Json.JStr("offline")
    else if column == "max_nodes" then Json.JInt(30)
    else Json.JNull
  }

  /**
    The value `create_gateway` gives a column: the body's, or the column default
    when the body leaves the column out or sends null. The topic prefix has no
    column default: only a missing key gets the derived prefix, and a null stays
    null. `status` always starts at its default.
  */
  function CreatedValue(d: Json.Object, column: string): Json.Json {
    if column == "status" then ColumnDefault(column)
    else if column == "mqtt_topic_prefix" then Json.GetOr(d, column, Json.JStr(DefaultPrefix(Json.Get(d, "gateway_id"))))
    else Json.Inserted(Json.Get(d, column), ColumnDefault(column))
  }

  function GatewayColumns(d: Json.Object): (m: Json.Object)
    ensures m.Keys == CreatedColumns
    ensures forall c :: c in m && c != "status" && c != "mqtt_topic_prefix" && Json.Get(d, c) != Json.JNull ==> m[c] == Json.Get(d, c)
    ensures forall c :: c in m && (c == "status" || (c != "mqtt_topic_prefix" && Json.Get(d, c) == Json.JNull)) ==> m[c] == ColumnDefault(c)
  {
    map c | c in CreatedColumns :: CreatedValue(d, c)
  }

  /** `Site.query.get(id)` */
  predicate SiteExists(s: Store, id: Json.Json) {
    id.JStr? && id.s in s.sites
  }

  /** `POST /iot-gateways`, the new row getting primary key `key`. */
  function CreateGateway(s: Store, body: Option<Json.Object>, key: Key): (a: Answer<Gateway>)
    ensures (a.reply.Failure? && a.reply.code == 400) <==> !CreateGuard(body)
    ensures a.reply.Failure? ==> a.store == s
    ensures CreateGuard(body) ==>
      (a.reply == Http.Failure(404, SiteMissing) <==> !SiteExists(s, body.value["site_id"]))
    ensures CreateGuard(body) && SiteExists(s, body.value["site_id"]) ==>
      (a.reply == Http.Failure(409, CodeTaken) <==> CodeInUse(s, body.value["gateway_id"]))
    ensures a.reply.Success? ==>
      a.reply.code == 201 && key !in s.gateways
      && a.store == s.(gateways := s.gateways[key := a.reply.value])
      && a.reply.value.gatewayId == body.value["gateway_id"]
      && SiteExists(s, SiteOf(a.reply.value))
      && a.reply.value.attrs == GatewayColumns(body.value)
    ensures Consistent(s) ==> Consistent(a.store)
  {
    if !CreateGuard(body) then Answer(Http.Failure(400, CreateRequired), s)
    else
      var d := body.value;
      if !SiteExists(s, d["site_id"]) then Answer(Http.Failure(404, SiteMissing), s)
      else if CodeInUse(s, d["gateway_id"]) then Answer(Http.Failure(409, CodeTaken), s)
      else if key in s.gateways then Answer(Http.Failure(500, ServerError), s)
      else
        var g := Gateway(d["gateway_id"], GatewayColumns(d));
        Commit(s, s.(gateways := s.gateways[key := g]), 201, g)
  }

  /**
    A created gateway starts "offline", gets `max_nodes` 30 when the body leaves
    it out or sends null, and the topic prefix of its code when the body leaves
    that out.
  */
  lemma CreateGatewayDefaults(s: Store, body: Option<Json.Object>, key: Key)
    requires CreateGateway(s, body, key).reply.Success?
    ensures var g := CreateGateway(s, body, key).reply.value; var d := body.value;
      Json.Get(g.attrs, "status") == Json.JStr("offline")
      && (("max_nodes" !in d || d["max_nodes"] == Json.JNull) ==> Json.Get(g.attrs, "max_nodes") == Json.JInt(30))
      && ("max_nodes" in d && d["max_nodes"] != Json.JNull ==> Json.Get(g.attrs, "max_nodes") == d["max_nodes"])
      && ("mqtt_topic_prefix" in d ==> Json.Get(g.attrs, "mqtt_topic_prefix") == d["mqtt_topic_prefix"])
      && ("mqtt_topic_prefix" !in d ==> Json.Get(g.attrs, "mqtt_topic_prefix") == Json.JStr(DefaultPrefix(d["gateway_id"])))
      && (d["gateway_id"].JStr? && "mqtt_topic_prefix" !in d ==>
            Json.Get(g.attrs, "mqtt_topic_prefix") == Json.JStr("apru40/gateway/" + d["gateway_id"].s))
  {
    assert "status" in CreatedColumns && "max_nodes" in CreatedColumns && "mqtt_topic_prefix" in CreatedColumns;
  }

  /** Some gateway already holds this MAC address, and it is not null. */
  predicate MacInUse(s: Store, mac: Json.Json) {
    mac != Json.JNull && exists k :: k in s.gateways && Mac(s.gateways[k].attrs) == mac
  }

  /** The 409 check covers the uniqueness of `gateway_id`: with a free key and an unused MAC the database accepts the row. */
  lemma CreateGatewayCommits(s: Store, body: Option<Json.Object>, key: Key)
    requires Consistent(s) && CreateGuard(body) && SiteExists(s, body.value["site_id"])
    requires !CodeInUse(s, body.value["gateway_id"])
    requires key !in s.gateways && !MacInUse(s, Json.Get(body.value, "mac_address"))
    ensures CreateGateway(s, body, key).reply.Success?
  {
    var d := body.value;
    var g := Gateway(d["gateway_id"], GatewayColumns(d));
    assert GatewayFilled(g) by {
      assert "name" in CreatedColumns && "site_id" in CreatedColumns;
    }
    AddGatewayConsistent(s, key, g);
  }

  /** The columns `update_gateway` may change: not `gateway_id`, but `site_id` and `mac_address` among them. */
  const GatewayUpdatable: set<string> := {
    "name", "site_id", "mac_address", "ip_address", "location",
    "status", "firmware_version", "max_nodes", "mqtt_topic_prefix",
    "description", "notes"
  }

  /** `PUT /iot-gateways/<id>`: each whitelisted column present in the body takes the body's value. */
  function UpdateGateway(s: Store, key: Key, body: Option<Json.Object>): (a: Answer<Gateway>)
    ensures key !in s.gateways ==> a.reply == Http.Failure(404, NotFound) && a.store == s
    ensures key in s.gateways && body.None? ==> a.reply == Http.Failure(500, ServerError) && a.store == s
    ensures key in s.gateways && body.Some?
      && (("name" in body.value && body.value["name"] == Json.JNull) || ("site_id" in body.value && body.value["site_id"] == Json.JNull))
      ==> a.reply == Http.Failure(500, ServerError) && a.store == s
    ensures a.reply.Failure? ==> a.store == s
    ensures a.reply.Success? ==>
      var g := s.gateways[key]; var h := a.reply.value;
      a.reply.code == 200 && a.store == s.(gateways := s.gateways[key := h])
      && h.gatewayId == g.gatewayId
      && (forall f :: f in GatewayUpdatable && f in body.value ==> f in h.attrs && h.attrs[f] == body.value[f])
      && (forall f :: f !in GatewayUpdatable || f !in body.value ==> Json.Get(h.attrs, f) == Json.Get(g.attrs, f))
    ensures Consistent(s) ==> Consistent(a.store)
  {
    if key !in s.gateways then Answer(Http.Failure(404, NotFound), s)
    else if body.None? then Answer(Http.Failure(500, ServerError), s)
    else
      var g := s.gateways[key];
      var h := g.(attrs := Json.Assign(g.attrs, body.value, GatewayUpdatable));
      UnfilledGatewayRefused(s, key, h);
      Commit(s, s.(gateways := s.gateways[key := h]), 200, h)
  }

  /**
    An update that leaves the MAC address alone can only break a NOT NULL
    constraint: it is refused exactly when it sets the name or the site to null.
  */
  lemma UpdateGatewayCommits(s: Store, key: Key, body: Json.Object)
    requires Consistent(s) && key in s.gateways && "mac_address" !in body
    ensures UpdateGateway(s, key, Some(body)).reply.Success? <==>
      ("name" !in body || body["name"] != Json.JNull) && ("site_id" !in body || body["site_id"] != Json.JNull)
  {
    var g := s.gateways[key];
    var h := g.(attrs := Json.Assign(g.attrs, body, GatewayUpdatable));
    assert "site_id" in GatewayUpdatable && "name" in GatewayUpdatable;
    assert Mac(h.attrs) == Mac(g.attrs);
    if ("name" !in body || body["name"] != Json.JNull) && ("site_id" !in body || body["site_id"] != Json.JNull) {
      assert GatewayFilled(h) by {
        assert GatewayFilled(g);
      }
      SameKeysConsistent(s, key, h);
    } else {
      assert !GatewayFilled(h);
      assert key in s.gateways[key := h];
    }
  }

  /**
    A new `site_id` is stored without looking for the site: an update that
    leaves the MAC address alone and names a non-null site succeeds whatever
    site it names, unless it sets the name to null.
  */
  lemma UpdateSiteUnchecked(s: Store, key: Key, body: Json.Object)
    requires Consistent(s) && key in s.gateways
    requires "site_id" in body && "mac_address" !in body
    ensures var a := UpdateGateway(s, key, Some(body));
      a.reply.Success? <==> body["site_id"] != Json.JNull && ("name" !in body || body["name"] != Json.JNull)
    ensures var a := UpdateGateway(s, key, Some(body));
      a.reply.Success? ==> SiteOf(a.reply.value) == body["site_id"]
  {
    UpdateGatewayCommits(s, key, body);
    assert "site_id" in GatewayUpdatable;
  }

  /** Rewriting a gateway's columns, its code and MAC address kept and its NOT NULL columns set, keeps every constraint. */
  lemma SameKeysConsistent(s: Store, key: Key, h: Gateway)
    requires Consistent(s) && key in s.gateways
    requires h.gatewayId == s.gateways[key].gatewayId && Mac(h.attrs) == Mac(s.gateways[key].attrs)
    requires GatewayFilled(h)
    ensures Consistent(s.(gateways := s.gateways[key := h]))
  {
    var t := s.(gateways := s.gateways[key := h]);
    assert forall k :: k in t.gateways ==>
      (k in s.gateways && t.gateways[k].gatewayId == s.gateways[k].gatewayId && Mac(t.gateways[k].attrs) == Mac(s.gateways[k].attrs));
  }

  /** `DELETE /iot-gateways/<id>`: the gateway and, by the cascade, its nodes. */
  function DeleteGatewayEndpoint(s: Store, key: Key): (a: Answer<()>)
    ensures key !in s.gateways ==> a == Answer(Http.Failure(404, NotFound), s)
    ensures key in s.gateways ==>
      (a.reply == Http.Success(200, ())
       && key !in a.store.gateways
       && (forall n :: n in a.store.nodes ==> a.store.nodes[n].gatewayKey != key)
       && (forall n :: n in s.nodes && s.nodes[n].gatewayKey != key ==> n in a.store.nodes)
       && (forall n :: n in a.store.nodes <==> n in s.nodes && s.nodes[n].gatewayKey != key)
       && (forall n :: n in a.store.nodes ==> a.store.nodes[n] == s.nodes[n])
       && a.store.gateways == s.gateways - {key}
       && a.store.sites == s.sites && a.store.readings == s.readings
       && a.store == DeleteGateway(s, key))
  {
    if key !in s.gateways then Answer(Http.Failure(404, NotFound), s)
    else Answer(Http.Success(200, ()), DeleteGateway(s, key))
  }

  /** The integer fields of `get_gateway_stats`; the capacity percentage is a float and is not modelled. */
  datatype GatewayStats = GatewayStats(
    gatewayId: Json.Json,
    totalNodes: nat,
    onlineNodes: nat,
    offlineNodes: int,
    maxNodes: Json.Json,
    online: nat,
    offline: nat,
    error: nat,
    bluetoothEnabled: nat,
    batteryPowered: nat)

  /** A node's `status` column equals `st`. */
  function HasStatus(st: string): Node -> bool {
    (n: Node) => Json.Get(n.attrs, "status") == Json.JStr(st)
  }

  /** A truthy boolean column. */
  function Flag(column: string): Node -> bool {
    (n: Node) => Json.Truthy(Json.Get(n.attrs, column))
  }

  /**
    `GET /iot-gateways/<id>/stats` over the node table: `offline_nodes` is every
    node that is not online, so the two add up to the total, while the
    per-status counts look at exact statuses and can leave nodes out. Comparing
    a null `max_nodes` with 0 raises, and the request fails with 500.
  */
  function Stats(s: Store, rows: seq<Node>, key: Key): (a: Http.Outcome<GatewayStats>)
    requires TableRows(s, rows)
    ensures key !in s.gateways ==> a == Http.Failure(404, NotFound)
    ensures key in s.gateways ==>
      (a.Failure? <==> Json.Get(s.gateways[key].attrs, "max_nodes") == Json.JNull)
    ensures key in s.gateways && a.Failure? ==> a == Http.Failure(500, ServerError)
    ensures a.Success? ==>
      var t := a.value;
      a.code == 200 && t.totalNodes == |GatewayRows(rows, key)|
      && t.gatewayId == s.gateways[key].gatewayId && t.maxNodes == Json.Get(s.gateways[key].attrs, "max_nodes")
      && t.onlineNodes + t.offlineNodes == t.totalNodes
      && t.offlineNodes >= 0 && t.online == t.onlineNodes
      && t.online + t.offline + t.error <= t.totalNodes
      && t.offline <= t.offlineNodes
      && t.bluetoothEnabled <= t.totalNodes && t.batteryPowered <= t.totalNodes
  {
    if key !in s.gateways then Http.Failure(404, NotFound)
    else
      var g := s.gateways[key];
      if Json.Get(g.attrs, "max_nodes") == Json.JNull then Http.Failure(500, ServerError)
      else
        var ns := NodesOf(rows, key);
        var online := Count(ns, HasStatus("online"));
        var offline := Count(ns, HasStatus("offline"));
        var error := Count(ns, HasStatus("error"));
        assert online + offline + error <= |ns| by {
          CountDisjoint3(ns, HasStatus("online"), HasStatus("offline"), HasStatus("error"));
        }
        NodesOfCount(rows, key);
        Http.Success(200, GatewayStats(g.gatewayId, |ns|, online, |ns| - online, Json.Get(g.attrs, "max_nodes"),
          online, offline, error, Count(ns, Flag("bluetooth_enabled")), Count(ns, Flag("battery_powered"))))
  }

  /** The positions of the rows of gateway `key` whose status is `st`. */
  function StatusRows(rows: seq<Node>, key: Key, st: string): set<int> {
    set i | 0 <= i < |rows| && rows[i].gatewayKey == key && Json.Get(rows[i].attrs, "status") == Json.JStr(st)
  }

  /** The positions of the rows of gateway `key` whose boolean `column` is truthy. */
  function FlagRows(rows: seq<Node>, key: Key, column: string): set<int> {
    set i | 0 <= i < |rows| && rows[i].gatewayKey == key && Json.Truthy(Json.Get(rows[i].attrs, column))
  }

  /** Counting a gateway's nodes of one status counts the table rows of that gateway and status. */
  lemma StatusCount(rows: seq<Node>, key: Key, st: string)
    ensures Count(NodesOf(rows, key), HasStatus(st)) == |StatusRows(rows, key, st)|
  {
    CountFilter(rows, OnGateway(key), HasStatus(st));
    CountIsPositions(rows, Both(OnGateway(key), HasStatus(st)));
    assert Positions(rows, Both(OnGateway(key), HasStatus(st)), |rows|) == StatusRows(rows, key, st);
  }

  /** Counting a gateway's nodes with a flag set counts the table rows of that gateway with the flag set. */
  lemma FlagCount(rows: seq<Node>, key: Key, column: string)
    ensures Count(NodesOf(rows, key), Flag(column)) == |FlagRows(rows, key, column)|
  {
    CountFilter(rows, OnGateway(key), Flag(column));
    CountIsPositions(rows, Both(OnGateway(key), Flag(column)));
    assert Positions(rows, Both(OnGateway(key), Flag(column)), |rows|) == FlagRows(rows, key, column);
  }

  /** Every figure of the statistics is the number of table rows of that gateway its condition selects. */
  lemma StatsCountsExact(s: Store, rows: seq<Node>, key: Key)
    requires TableRows(s, rows)
    requires Stats(s, rows, key).Success?
    ensures var t := Stats(s, rows, key).value;
      t.onlineNodes == |StatusRows(rows, key, "online")|
      && t.offlineNodes == |GatewayRows(rows, key)| - |StatusRows(rows, key, "online")|
      && t.offline == |StatusRows(rows, key, "offline")| && t.error == |StatusRows(rows, key, "error")|
      && t.bluetoothEnabled == |FlagRows(rows, key, "bluetooth_enabled")|
      && t.batteryPowered == |FlagRows(rows, key, "battery_powered")|
  {
    StatusCount(rows, key, "online");
    StatusCount(rows, key, "offline");
    StatusCount(rows, key, "error");
    FlagCount(rows, key, "bluetooth_enabled");
    FlagCount(rows, key, "battery_powered");
  }

  /**
    The statistics agree with the other endpoints: the total is the node count
    of the gateway details, and the online count is the length of `/nodes`
    filtered by that gateway and status "online".
  */
  lemma StatsAgreeWithListings(s: Store, rows: seq<Node>, key: Key, includeNodes: Option<string>)
    requires TableRows(s, rows) && key in s.gateways && key != ""
    requires Json.Get(s.gateways[key].attrs, "max_nodes") != Json.JNull
    ensures var t := Stats(s, rows, key).value;
      t.totalNodes == GetGateway(s, rows, key, includeNodes).value.nodeCount
      && t.totalNodes == |NodesApi.ListNodes(rows, NodesApi.NodeQuery(Some(key), None, None))|
      && t.onlineNodes == |NodesApi.ListNodes(rows, NodesApi.NodeQuery(Some(key), Some("online"), None))|
  {
    var byGateway := (n: Node) => NodesApi.Matches(n, NodesApi.NodeQuery(Some(key), None, None));
    var byStatus := (n: Node) => NodesApi.Matches(n, NodesApi.NodeQuery(Some(key), Some("online"), None));
    FilterSame(rows, OnGateway(key), byGateway);
    CountFilter(rows, OnGateway(key), HasStatus("online"));
    CountSame(rows, Both(OnGateway(key), HasStatus("online")), byStatus);
  }

  const CommandRequired := "Command is required"

  /** The answer of `send_gateway_command`: it echoes the command; nothing is published. */
  datatype CommandReply = CommandReply(message: string, gatewayId: Json.Json, command: Json.Json, params: Json.Json)

  /** `POST /iot-gateways/<id>/command`; the tables are never written. */
  function SendCommand(s: Store, key: Key, body: Option<Json.Object>): (a: Http.Outcome<CommandReply>)
    ensures key !in s.gateways ==> a == Http.Failure(404, NotFound)
    ensures key in s.gateways ==>
      (a == Http.Failure(400, CommandRequired) <==> Json.Blank(body) || !Json.Truthy(Json.Get(body.value, "command")))
    ensures a.Success? ==>
      var r := a.value; var d := body.value;
      a.code == 200 && r.command == d["command"] && r.gatewayId == s.gateways[key].gatewayId
      && ("params" in d ==> r.params == d["params"])
      && ("params" !in d ==> r.params == Json.JObj(map[]))
      && (d["command"].JStr? ==> r.message == "Command \"" + d["command"].s + "\" sent to gateway")
  {
    if key !in s.gateways then Http.Failure(404, NotFound)
    else if Json.Blank(body) || !Json.Truthy(Json.Get(body.value, "command")) then Http.Failure(400, CommandRequired)
    else
      var d := body.value;
      var cmd := d["command"];
      Http.Success(200, CommandReply("Command \"" + Json.Format(cmd) + "\" sent to gateway",
        s.gateways[key].gatewayId, cmd, Json.GetOr(d, "params", Json.JObj(map[]))))
  }
  /**
    The command endpoint and the detail view agree on which gateways exist, and
    a sent command names the same `gateway_id` the detail view shows.
  */
  lemma SendCommandAgreesWithDetail(s: Store, rows: seq<Node>, key: Key, body: Option<Json.Object>, includeNodes: Option<string>)
    requires TableRows(s, rows)
    ensures SendCommand(s, key, body) == Http.Failure(404, NotFound)
        <==> GetGateway(s, rows, key, includeNodes) == Http.Failure(404, NotFound)
    ensures SendCommand(s, key, body).Success? ==>
      GetGateway(s, rows, key, includeNodes).Success?
      && SendCommand(s, key, body).value.gatewayId == GetGateway(s, rows, key, includeNodes).value.row.gatewayId
  {
  }

}
