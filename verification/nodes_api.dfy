/**
  The node endpoints: listing with filters, creation, the whitelisted update,
  reassignment to another gateway, deletion, and the reading and QR-code
  histories of a node.
*/
module NodesApi {
  import opened Wrappers
  import opened Text
  import opened Seqs
  import Json
  import Http
  import opened IotModels

  /** The query parameters of `GET /nodes`; an absent parameter is `None`. */
  datatype NodeQuery = NodeQuery(gatewayId: Option<string>, status: Option<string>, bluetoothEnabled: Option<string>)

  /** The conditions `get_nodes` adds to its query. */
  predicate Matches(n: Node, q: NodeQuery) {
    (Http.Given(q.gatewayId) ==> n.gatewayKey == q.gatewayId.value)
    && (Http.Given(q.status) ==> Json.Get(n.attrs, "status") == Json.JStr(q.status.value))
    && (q.bluetoothEnabled.Some? ==>
          Json.Get(n.attrs, "bluetooth_enabled") == Json.JBool(SaysTrue(q.bluetoothEnabled.value)))
  }

  /** `GET /nodes`: the rows of the node table, in the order the database returns them, that match the query. */
  function ListNodes(rows: seq<Node>, q: NodeQuery): (r: seq<Node>)
    ensures forall i :: 0 <= i < |r| ==> r[i] in rows && Matches(r[i], q)
    ensures forall i :: 0 <= i < |rows| && Matches(rows[i], q) ==> rows[i] in r
    ensures IsSubsequence(r, rows) && |r| == Count(rows, Matching(q))
  {
    FilterSubsequence(rows, Matching(q));
    Filter(rows, Matching(q))
  }

  /** The query's conditions as a test on one row. */
  function Matching(q: NodeQuery): Node -> bool {
    (n: Node) => Matches(n, q)
  }

  /**
    Gateway and status filters given as empty text filter nothing, and neither
    does an absent Bluetooth parameter.
  */
  lemma EmptyParametersFilterNothing(rows: seq<Node>, g: Option<string>, st: Option<string>)
    requires !Http.Given(g) && !Http.Given(st)
    ensures ListNodes(rows, NodeQuery(g, st, None)) == rows
  {
    FilterAll(rows, Matching(NodeQuery(g, st, None)));
  }

  /**
    A Bluetooth parameter, even an empty one, always filters: nodes with the flag
    set are listed exactly when the parameter spells "true" in some mix of cases.
  */
  lemma BluetoothParameter(rows: seq<Node>, p: string, i: nat)
    requires i < |rows|
    ensures var r := ListNodes(rows, NodeQuery(None, None, Some(p)));
      (rows[i] in r <==> Json.Get(rows[i].attrs, "bluetooth_enabled") == Json.JBool(SaysTrue(p)))
    ensures SaysTrue(p) <==> |p| == 4 && p[0] in "tT" && p[1] in "rR" && p[2] in "uU" && p[3] in "eE"
  {
    SaysTrueSpelling(p);
    var r := ListNodes(rows, NodeQuery(None, None, Some(p)));
    if rows[i] in r {
      var k :| 0 <= k < |r| && r[k] == rows[i];
    }
  }

  const CreateRequired := "Name, gateway_id, and node_id are required"
  const GatewayMissing := "Gateway not found"
  const NodeIdTaken := "Node ID already exists for this gateway"

  /** The guard of `create_node`: a body with a truthy `name` and `gateway_id`, and a `node_id` that is not null. */
  predicate CreateGuard(body: Option<Json.Object>) {
    !Json.Blank(body) && Json.Truthy(Json.Get(body.value, "name"))
    && Json.Truthy(Json.Get(body.value, "gateway_id")) && Json.Get(body.value, "node_id") != Json.JNull
  }

  /** `Gateway.query.get(id)`: the gateway whose primary key is the given text. */
  function FindGateway(s: Store, id: Json.Json): (r: Option<Key>)
    ensures r.Some? <==> id.JStr? && id.s in s.gateways
    ensures r.Some? ==> r.value == id.s
  {
    if id.JStr? && id.s in s.gateways then Some(id.s) else None
  }

  /** Some node on gateway `g` already has this `node_id`. */
  predicate Taken(s: Store, g: Key, nodeId: Json.Json) {
    exists k :: k in s.nodes && s.nodes[k].gatewayKey == g && s.nodes[k].nodeId == nodeId
  }

  /** The columns `create_node` fills in, besides `node_id` and `gateway_id`. */
  const CreatedColumns: set<string> := {
    "name", "mac_address", "location", "node_type", "adc_config",
    "bluetooth_enabled", "bluetooth_mac", "scanner_model", "sensor_conversions",
    "battery_powered", "description", "manufacturer", "model", "serial_number", "status"
  }

  /** The default a node column falls back to, null for a column without one. */
  function ColumnDefault(column: string): Json.Json {
    if column == "status" then Json.JStr("offline")
    else if column == "node_type" then Json.JStr("sensor")
    else if column == "bluetooth_enabled" || column == "battery_powered" then Json.JBool(false)
    else Json.JNull
  }

  /**
    The value `create_node` gives a column: the body's, or the column's default
    when the body leaves the column out or sends null; `status` always starts at
    its default.
  */
  function CreatedValue(d: Json.Object, column: string): Json.Json {
    if column == "status" then ColumnDefault(column)
    else Json.Inserted(Json.Get(d, column), ColumnDefault(column))
  }

  function NodeColumns(d: Json.Object): (m: Json.Object)
    ensures m.Keys == CreatedColumns
    ensures forall c :: c in m && c != "status" && Json.Get(d, c) != Json.JNull ==> m[c] == Json.Get(d, c)
    ensures forall c :: c in m && (c == "status" || Json.Get(d, c) == Json.JNull) ==> m[c] == ColumnDefault(c)
  {
    map c | c in CreatedColumns :: CreatedValue(d, c)
  }

  /**
    `POST /nodes`. The new row gets primary key `key`, the UUID the model takes
    as given; a key already in use fails the commit like any other constraint.
  */
  function CreateNode(s: Store, body: Option<Json.Object>, key: Key): (a: Answer<Node>)
    ensures (a.reply.Failure? && a.reply.code == 400) <==> !CreateGuard(body)
    ensures a.reply.Failure? ==> a.store == s
    ensures CreateGuard(body) && FindGateway(s, body.value["gateway_id"]).None? ==>
      a.reply == Http.Failure(404, GatewayMissing)
    ensures CreateGuard(body) && FindGateway(s, body.value["gateway_id"]).Some? ==>
      (a.reply == Http.Failure(409, NodeIdTaken) <==> Taken(s, body.value["gateway_id"].s, body.value["node_id"]))
    ensures a.reply.Success? ==>
      a.reply.code == 201 && key !in s.nodes
      && a.store == s.(nodes := s.nodes[key := a.reply.value])
      && a.reply.value.gatewayKey in s.gateways
      && a.reply.value.nodeId == body.value["node_id"]
      && a.reply.value.attrs == NodeColumns(body.value)
    ensures Consistent(s) ==> Consistent(a.store)
  {
    if !CreateGuard(body) then Answer(Http.Failure(400, CreateRequired), s)
    else
      var d := body.value;
      match FindGateway(s, d["gateway_id"])
      case None => Answer(Http.Failure(404, GatewayMissing), s)
      case Some(g) =>
        if Taken(s, g, d["node_id"]) then Answer(Http.Failure(409, NodeIdTaken), s)
        else if key in s.nodes then Answer(Http.Failure(500, ServerError), s)
        else
          var n := Node(d["node_id"], g, NodeColumns(d));
          Commit(s, s.(nodes := s.nodes[key := n]), 201, n)
  }

  /** A created node gets the defaults of `create_node` and of the `status` column for everything the body leaves out or sends as null. */
  lemma CreateNodeDefaults(s: Store, body: Option<Json.Object>, key: Key)
    requires CreateNode(s, body, key).reply.Success?
    ensures var n := CreateNode(s, body, key).reply.value; var d := body.value;
      Json.Get(n.attrs, "status") == Json.JStr("offline")
      && (("node_type" !in d || d["node_type"] == Json.JNull) ==> Json.Get(n.attrs, "node_type") == Json.JStr("sensor"))
      && (("bluetooth_enabled" !in d || d["bluetooth_enabled"] == Json.JNull) ==> Json.Get(n.attrs, "bluetooth_enabled") == Json.JBool(false))
      && (("battery_powered" !in d || d["battery_powered"] == Json.JNull) ==> Json.Get(n.attrs, "battery_powered") == Json.JBool(false))
      && ("node_type" in d && d["node_type"] != Json.JNull ==> Json.Get(n.attrs, "node_type") == d["node_type"])
      && Json.Get(n.attrs, "name") == d["name"]
  {
    var d := body.value;
    var m := NodeColumns(d);
    assert "status" in CreatedColumns && "node_type" in CreatedColumns && "name" in CreatedColumns;
    assert "bluetooth_enabled" in CreatedColumns && "battery_powered" in CreatedColumns;
  }

  /** Some node already holds this MAC address, and it is not null. */
  predicate MacInUse(s: Store, mac: Json.Json) {
    mac != Json.JNull && exists k :: k in s.nodes && Mac(s.nodes[k].attrs) == mac
  }

  /**
    The 409 check covers the `(gateway_id, node_id)` constraint completely: a
    creation that passes the guards, gets a free primary key and brings an
    unused MAC address is never refused by the database.
  */
  lemma CreateNodeCommits(s: Store, body: Option<Json.Object>, key: Key)
    requires Consistent(s) && CreateGuard(body)
    requires FindGateway(s, body.value["gateway_id"]).Some?
    requires !Taken(s, body.value["gateway_id"].s, body.value["node_id"])
    requires key !in s.nodes && !MacInUse(s, Json.Get(body.value, "mac_address"))
    ensures CreateNode(s, body, key).reply.Success?
  {
    var d := body.value;
    var n := Node(d["node_id"], d["gateway_id"].s, NodeColumns(d));
    assert NodeFilled(n) by {
      assert "name" in CreatedColumns;
    }
    AddNodeConsistent(s, key, n);
  }

  /** The columns `update_node` may change. */
  const NodeUpdatable: set<string> := {
    "name", "location", "status", "node_type", "adc_config",
    "bluetooth_enabled", "bluetooth_mac", "scanner_model",
    "sensor_conversions", "description", "manufacturer",
    "model", "serial_number", "notes"
  }

  /**
    `PUT /nodes/<id>`: each whitelisted column present in the body takes the
    body's value. A missing body fails with 500 (`field in None` raises).
  */
  function UpdateNode(s: Store, key: Key, body: Option<Json.Object>): (a: Answer<Node>)
    ensures key !in s.nodes ==> a.reply == Http.Failure(404, NotFound) && a.store == s
    ensures key in s.nodes && body.None? ==> a.reply == Http.Failure(500, ServerError) && a.store == s
    ensures key in s.nodes && body.Some? && "name" in body.value && body.value["name"] == Json.JNull ==>
      a.reply == Http.Failure(500, ServerError) && a.store == s
    ensures a.reply.Success? ==>
      var n := s.nodes[key]; var m := a.reply.value;
      a.reply.code == 200 && a.store == s.(nodes := s.nodes[key := m])
      && m.nodeId == n.nodeId && m.gatewayKey == n.gatewayKey && Mac(m.attrs) == Mac(n.attrs)
      && Json.Get(m.attrs, "firmware_version") == Json.Get(n.attrs, "firmware_version")
      && (forall f :: f in NodeUpdatable && f in body.value ==> f in m.attrs && m.attrs[f] == body.value[f])
      && (forall f :: f !in NodeUpdatable || f !in body.value ==> Json.Get(m.attrs, f) == Json.Get(n.attrs, f))
    ensures Consistent(s) ==> Consistent(a.store)
  {
    if key !in s.nodes then Answer(Http.Failure(404, NotFound), s)
    else if body.None? then Answer(Http.Failure(500, ServerError), s)
    else
      var n := s.nodes[key];
      var m := n.(attrs := Json.Assign(n.attrs, body.value, NodeUpdatable));
      UpdatableLeavesKeys();
      assert Consistent(s) && Name(m.attrs) != Json.JNull ==> Consistent(s.(nodes := s.nodes[key := m])) by {
        if Consistent(s) && Name(m.attrs) != Json.JNull { SameKeysConsistent(s, key, m); }
      }
      UnfilledNodeRefused(s, key, m);
      Commit(s, s.(nodes := s.nodes[key := m]), 200, m)
  }

  /** Neither the MAC address nor the firmware version is among the columns an update may set; the name is. */
  lemma UpdatableLeavesKeys()
    ensures "mac_address" !in NodeUpdatable && "firmware_version" !in NodeUpdatable
    ensures "name" in NodeUpdatable
  {
  }

  /**
    The only constraint an update can break is the NOT NULL on `name`: the
    database refuses the update exactly when the body sets the name to null.
  */
  lemma UpdateNodeCommits(s: Store, key: Key, body: Json.Object)
    requires Consistent(s) && key in s.nodes
    ensures UpdateNode(s, key, Some(body)).reply.Success? <==> ("name" !in body || body["name"] != Json.JNull)
  {
    var n := s.nodes[key];
    var m := n.(attrs := Json.Assign(n.attrs, body, NodeUpdatable));
    UpdatableLeavesKeys();
    if "name" !in body || body["name"] != Json.JNull {
      assert Name(m.attrs) != Json.JNull by {
        assert NodeFilled(s.nodes[key]);
      }
      SameKeysConsistent(s, key, m);
    } else {
      assert !NodeFilled(m);
      assert !NotNull(s.(nodes := s.nodes[key := m])) by {
        assert key in s.nodes[key := m];
      }
    }
  }

  /** Rewriting a node's free columns, its name left set, keeps every constraint. */
  lemma SameKeysConsistent(s: Store, key: Key, m: Node)
    requires Consistent(s) && key in s.nodes
    requires m.nodeId == s.nodes[key].nodeId && m.gatewayKey == s.nodes[key].gatewayKey
    requires Mac(m.attrs) == Mac(s.nodes[key].attrs) && Name(m.attrs) != Json.JNull
    ensures Consistent(s.(nodes := s.nodes[key := m]))
  {
    var t := s.(nodes := s.nodes[key := m]);
    assert forall k :: k in t.nodes ==> (k in s.nodes && t.nodes[k].gatewayKey == s.nodes[k].gatewayKey
      && t.nodes[k].nodeId == s.nodes[k].nodeId && Mac(t.nodes[k].attrs) == Mac(s.nodes[k].attrs));
  }

  const AdcRequired := "ADC configuration is required"

  /**
    `PUT /nodes/<id>/adc-config`: the body must carry an `adc_config` key, whose
    value is stored as it is; `sensor_conversions` is stored too when present.
  */
  function UpdateAdcConfig(s: Store, key: Key, body: Option<Json.Object>): (a: Answer<Node>)
    ensures key !in s.nodes ==> a == Answer(Http.Failure(404, NotFound), s)
    ensures key in s.nodes ==>
      (a.reply == Http.Failure(400, AdcRequired) <==> Json.Blank(body) || "adc_config" !in body.value)
    ensures a.reply.Failure? ==> a.store == s
    ensures a.reply.Success? ==>
      var n := s.nodes[key]; var m := a.reply.value; var d := body.value;
      a.reply.code == 200 && a.store == s.(nodes := s.nodes[key := m])
      && m.nodeId == n.nodeId && m.gatewayKey == n.gatewayKey
      && Json.Get(m.attrs, "adc_config") == d["adc_config"]
      && ("sensor_conversions" in d ==> Json.Get(m.attrs, "sensor_conversions") == d["sensor_conversions"])
      && (forall f :: f != "adc_config" && f != "sensor_conversions" ==> Json.Get(m.attrs, f) == Json.Get(n.attrs, f))
    ensures Consistent(s) && key in s.nodes && !Json.Blank(body) && "adc_config" in body.value ==> a.reply.Success?
    ensures Consistent(s) ==> Consistent(a.store)
  {
    if key !in s.nodes then Answer(Http.Failure(404, NotFound), s)
    else if Json.Blank(body) || "adc_config" !in body.value then Answer(Http.Failure(400, AdcRequired), s)
    else
      var n := s.nodes[key];
      var m := n.(attrs := Json.Assign(n.attrs, body.value, {"adc_config", "sensor_conversions"}));
      assert Mac(m.attrs) == Mac(n.attrs);
      assert Consistent(s) ==> Consistent(s.(nodes := s.nodes[key := m])) by {
        if Consistent(s) { SameKeysConsistent(s, key, m); }
      }
      Commit(s, s.(nodes := s.nodes[key := m]), 200, m)
  }

  /** The columns `update_bluetooth_config` may change. */
  const BluetoothColumns: set<string> := {"bluetooth_enabled", "bluetooth_mac", "scanner_model"}

  /** `PUT /nodes/<id>/bluetooth`: the three Bluetooth columns present in the body; a missing body fails with 500. */
  function UpdateBluetooth(s: Store, key: Key, body: Option<Json.Object>): (a: Answer<Node>)
    ensures key !in s.nodes ==> a == Answer(Http.Failure(404, NotFound), s)
    ensures key in s.nodes && body.None? ==> a == Answer(Http.Failure(500, ServerError), s)
    ensures a.reply.Success? ==>
      var n := s.nodes[key]; var m := a.reply.value;
      a.reply.code == 200 && a.store == s.(nodes := s.nodes[key := m])
      && m.nodeId == n.nodeId && m.gatewayKey == n.gatewayKey
      && (forall f :: f in BluetoothColumns && f in body.value ==> Json.Get(m.attrs, f) == body.value[f])
      && (forall f :: f !in BluetoothColumns || f !in body.value ==> Json.Get(m.attrs, f) == Json.Get(n.attrs, f))
    ensures Consistent(s) && key in s.nodes && body.Some? ==> a.reply.Success?
    ensures Consistent(s) ==> Consistent(a.store)
  {
    if key !in s.nodes then Answer(Http.Failure(404, NotFound), s)
    else if body.None? then Answer(Http.Failure(500, ServerError), s)
    else
      var n := s.nodes[key];
      var m := n.(attrs := Json.Assign(n.attrs, body.value, BluetoothColumns));
      assert Mac(m.attrs) == Mac(n.attrs);
      assert Consistent(s) ==> Consistent(s.(nodes := s.nodes[key := m])) by {
        if Consistent(s) { SameKeysConsistent(s, key, m); }
      }
      Commit(s, s.(nodes := s.nodes[key := m]), 200, m)
  }

  const GatewayRequired := "Gateway ID is required"
  const NodeIdTakenOnTarget := "Node ID already exists on target gateway"

  /** A node other than `key` on gateway `g` has this `node_id`. */
  predicate TakenByOther(s: Store, key: Key, g: Key, nodeId: Json.Json) {
    exists k :: k in s.nodes && k != key && s.nodes[k].gatewayKey == g && s.nodes[k].nodeId == nodeId
  }

  /**
    `PUT /nodes/<id>/gateway`. The source asks the database for the first node
    on the target with the same `node_id` and refuses when that node is another
    one; with the unique constraint in force at most one such node exists, so
    this is the same as asking whether another node holds it.
  */
  function ReassignGateway(s: Store, key: Key, body: Option<Json.Object>): (a: Answer<Node>)
    ensures key !in s.nodes ==> a.reply == Http.Failure(404, NotFound)
    ensures key in s.nodes ==>
      ((a.reply.Failure? && a.reply.code == 400) <==> Json.Blank(body) || !Json.Truthy(Json.Get(body.value, "gateway_id")))
    ensures a.reply.Failure? ==> a.store == s
    ensures a.reply.Success? ==>
      var n := s.nodes[key];
      a.reply.code == 200 && a.reply.value == n.(gatewayKey := a.reply.value.gatewayKey)
      && Json.Get(body.value, "gateway_id") == Json.JStr(a.reply.value.gatewayKey)
      && a.reply.value.gatewayKey in s.gateways
      && a.store == s.(nodes := s.nodes[key := a.reply.value])
    ensures key in s.nodes && !Json.Blank(body) && Json.Truthy(Json.Get(body.value, "gateway_id")) ==>
      var target := FindGateway(s, body.value["gateway_id"]);
      (a.reply == Http.Failure(404, GatewayMissing) <==> target.None?)
      && ((a.reply.Failure? && a.reply.code == 409) <==>
            target.Some? && TakenByOther(s, key, target.value, s.nodes[key].nodeId))
    ensures Consistent(s) ==> Consistent(a.store)
  {
    if key !in s.nodes then Answer(Http.Failure(404, NotFound), s)
    else if Json.Blank(body) || !Json.Truthy(Json.Get(body.value, "gateway_id")) then
      Answer(Http.Failure(400, GatewayRequired), s)
    else
      var n := s.nodes[key];
      match FindGateway(s, body.value["gateway_id"])
      case None => Answer(Http.Failure(404, GatewayMissing), s)
      case Some(g) =>
        if TakenByOther(s, key, g, n.nodeId) then Answer(Http.Failure(409, NodeIdTakenOnTarget), s)
        else
          var m := n.(gatewayKey := g);
          Commit(s, s.(nodes := s.nodes[key := m]), 200, m)
  }

  /** A reassignment that passes the 409 check is never refused by the database. */
  lemma ReassignCommits(s: Store, key: Key, body: Option<Json.Object>)
    requires Consistent(s)
    ensures ReassignGateway(s, key, body).reply.code != 500
    ensures ReassignGateway(s, key, body).reply.Success? <==>
      key in s.nodes && !Json.Blank(body) && Json.Truthy(Json.Get(body.value, "gateway_id"))
      && FindGateway(s, body.value["gateway_id"]).Some?
      && !TakenByOther(s, key, FindGateway(s, body.value["gateway_id"]).value, s.nodes[key].nodeId)
  {
    if key in s.nodes && !Json.Blank(body) && Json.Truthy(Json.Get(body.value, "gateway_id")) {
      match FindGateway(s, body.value["gateway_id"])
      case None =>
      case Some(g) =>
        if !TakenByOther(s, key, g, s.nodes[key].nodeId) {
          ReassignConsistent(s, key, g);
        }
    }
  }

  /** Moving a node to a gateway where its `node_id` is free keeps the store consistent. */
  lemma ReassignConsistent(s: Store, key: Key, g: Key)
    requires Consistent(s) && key in s.nodes && !TakenByOther(s, key, g, s.nodes[key].nodeId)
    ensures Consistent(s.(nodes := s.nodes[key := s.nodes[key].(gatewayKey := g)]))
  {
    var t := s.(nodes := s.nodes[key := s.nodes[key].(gatewayKey := g)]);
    assert NodeIdsUnique(t.nodes) by {
      forall a, b | a in t.nodes && b in t.nodes && a != b
        ensures t.nodes[a].gatewayKey != t.nodes[b].gatewayKey || t.nodes[a].nodeId != t.nodes[b].nodeId
      {
        if a == key {
          assert b in s.nodes && b != key;
        } else if b == key {
          assert a in s.nodes && a != key;
        }
      }
    }
    assert NodeMacsUnique(t.nodes) by {
      assert forall k :: k in t.nodes ==> k in s.nodes && Mac(t.nodes[k].attrs) == Mac(s.nodes[k].attrs);
    }
  }


  /** Reassigning a node to the gateway it is already on succeeds and changes nothing. */
  lemma ReassignToSameGateway(s: Store, key: Key, body: Json.Object)
    requires Consistent(s) && key in s.nodes && s.nodes[key].gatewayKey in s.gateways
    requires "gateway_id" in body && body["gateway_id"] == Json.JStr(s.nodes[key].gatewayKey)
    requires s.nodes[key].gatewayKey != []
    ensures ReassignGateway(s, key, Some(body)) == Answer(Http.Success(200, s.nodes[key]), s)
  {
    var n := s.nodes[key];
    assert |body| > 0;
    assert !TakenByOther(s, key, n.gatewayKey, n.nodeId);
    assert s.(nodes := s.nodes[key := n]) == s;
  }

  /** `DELETE /nodes/<id>`: the row goes; its readings stay, since no cascade reaches them. */
  function DeleteNode(s: Store, key: Key): (a: Answer<()>)
    ensures key !in s.nodes ==> a.reply == Http.Failure(404, NotFound) && a.store == s
    ensures key in s.nodes ==>
      a.reply == Http.Success(200, ()) && a.store.nodes.Keys == s.nodes.Keys - {key} && a.store.nodes == s.nodes - {key}
    ensures a.store.readings == s.readings && a.store.gateways == s.gateways && a.store.sites == s.sites
    ensures Consistent(s) ==> Consistent(a.store)
  {
    if key !in s.nodes then Answer(Http.Failure(404, NotFound), s)
    else Answer(Http.Success(200, ()), s.(nodes := s.nodes - {key}))
  }

  /** The reading's timestamp, the key of `ORDER BY timestamp DESC`. */
  function Stamp(x: Reading): int {
    x.timestamp
  }

  /**
    `request.args.get('limit', default, type=int)`: the parameter when it is
    present and reads as an integer, the default otherwise.
  */
  function LimitParam(p: Option<int>, default: int): int {
    p.GetOr(default)
  }

  /** The rows `get_node_sensor_data` selects for one node. */
  predicate SensorRowFor(x: Reading, nodeKey: Key, adcType: Option<string>, channel: Option<int>) {
    x.nodeKey == nodeKey
    && (Http.Given(adcType) ==> x.adcType == adcType.value)
    && (channel.Some? ==> x.channel == channel.value)
  }

  /**
    `GET /nodes/<id>/sensor-data`: the node's readings, filtered by ADC type
    when one is given and by channel whenever one is given (channel 0
    included), newest first, at most `limit` of them (1000 by default).
  */
  function NodeSensorData(s: Store, nodeKey: Key, limit: Option<int>, adcType: Option<string>, channel: Option<int>)
    : (a: Http.Outcome<seq<Reading>>)
    ensures nodeKey !in s.nodes ==> a == Http.Failure(404, NotFound)
    ensures nodeKey in s.nodes ==> a.Success?
    ensures a.Success? ==>
      var r := a.value; var p := SensorRowsFor(nodeKey, adcType, channel);
      var n := LimitParam(limit, 1000); var matching := Count(s.readings, p);
      a.code == 200 && SortedDesc(r, Stamp)
      && (forall i :: 0 <= i < |r| ==> r[i] in s.readings && SensorRowFor(r[i], nodeKey, adcType, channel))
      && |r| == (if 0 <= n < matching then n else matching)
      && multiset(r) <= multiset(Filter(s.readings, p))
      && (forall x, i :: x in multiset(Filter(s.readings, p)) - multiset(r) && 0 <= i < |r| ==> Stamp(x) <= Stamp(r[i]))
  {
    if nodeKey !in s.nodes then Http.Failure(404, NotFound)
    else
      Http.Success(200, Query(s.readings, SensorRowsFor(nodeKey, adcType, channel), Stamp, LimitParam(limit, 1000)))
  }

  function SensorRowsFor(nodeKey: Key, adcType: Option<string>, channel: Option<int>): Reading -> bool {
    (x: Reading) => SensorRowFor(x, nodeKey, adcType, channel)
  }

  /** The QR code column of each row, in order. */
  function Codes(rows: seq<Reading>): (r: seq<Option<string>>)
    ensures |r| == |rows| && forall i :: 0 <= i < |rows| ==> r[i] == rows[i].qrCode
  {
    if |rows| == 0 then [] else [rows[0].qrCode] + Codes(rows[1..])
  }

  /** The first row carrying code `c`. */
  function FirstWith(rows: seq<Reading>, c: Option<string>): (x: Reading)
    requires c in Codes(rows)
    ensures x in rows && x.qrCode == c
  {
    if rows[0].qrCode == c then rows[0] else FirstWith(rows[1..], c)
  }

  /**
    The loop of `get_node_qr_codes`, with the codes in `seen` already met: the
    first row of each code not met yet, in row order.
  */
  function FirstCodes(rows: seq<Reading>, seen: set<Option<string>>): (r: seq<Reading>)
    ensures forall i :: 0 <= i < |r| ==>
      (r[i].qrCode in Codes(rows) && r[i].qrCode !in seen && r[i] == FirstWith(rows, r[i].qrCode))
  {
    if |rows| == 0 then []
    else if rows[0].qrCode in seen then
      var rest := FirstCodes(rows[1..], seen);
      assert Codes(rows) == [rows[0].qrCode] + Codes(rows[1..]);
      rest
    else
      var rest := FirstCodes(rows[1..], seen + {rows[0].qrCode});
      assert Codes(rows) == [rows[0].qrCode] + Codes(rows[1..]);
      [rows[0]] + rest
  }

  /** The codes `FirstCodes` keeps are the first-occurrence deduplication of the row codes. */
  lemma {:induction false} FirstCodesDedup(rows: seq<Reading>, seen: set<Option<string>>)
    ensures Codes(FirstCodes(rows, seen)) == DedupFrom(Codes(rows), seen)
  {
    if |rows| > 0 {
      var cs := Codes(rows);
      assert cs[0] == rows[0].qrCode && cs[1..] == Codes(rows[1..]);
      if rows[0].qrCode in seen {
        FirstCodesDedup(rows[1..], seen);
      } else {
        FirstCodesDedup(rows[1..], seen + {rows[0].qrCode});
        var rest := FirstCodes(rows[1..], seen + {rows[0].qrCode});
        assert Codes([rows[0]] + rest) == [rows[0].qrCode] + Codes(rest);
      }
    }
  }

  /** What `FirstCodes` keeps is a subsequence of the rows. */
  lemma {:induction false} FirstCodesSubsequence(rows: seq<Reading>, seen: set<Option<string>>)
    ensures IsSubsequence(FirstCodes(rows, seen), rows)
  {
    if |rows| > 0 {
      if rows[0].qrCode in seen {
        FirstCodesSubsequence(rows[1..], seen);
        SubsequenceSkip(FirstCodes(rows[1..], seen), rows);
      } else {
        FirstCodesSubsequence(rows[1..], seen + {rows[0].qrCode});
      }
    }
  }

  /** The rows `get_node_qr_codes` reads: the node's readings with a code, newest first, at most `limit`. */
  predicate QrRowFor(x: Reading, nodeKey: Key) {
    x.nodeKey == nodeKey && x.qrCode.Some?
  }

  /**
    `GET /nodes/<id>/qr-codes`: of the node's newest `limit` coded readings
    (100 by default), the newest reading of each distinct code.
  */
  function QrHistory(s: Store, nodeKey: Key, limit: Option<int>): (a: Http.Outcome<seq<Reading>>)
    ensures nodeKey !in s.nodes ==> a == Http.Failure(404, NotFound)
    ensures nodeKey in s.nodes ==> a.Success? && a.code == 200
    ensures a.Success? ==> Distinct(Codes(a.value))
    ensures a.Success? ==>
      var read := QrRowsRead(s, nodeKey, limit);
      Codes(a.value) == Dedup(Codes(read)) && IsSubsequence(a.value, read)
      && forall i :: 0 <= i < |a.value| ==> a.value[i].qrCode in Codes(read)
    ensures a.Success? ==>
      var read := QrRowsRead(s, nodeKey, limit);
      forall i :: 0 <= i < |a.value| ==> a.value[i] == FirstWith(read, a.value[i].qrCode)
  {
    if nodeKey !in s.nodes then Http.Failure(404, NotFound)
    else
      var rows := QrRowsRead(s, nodeKey, limit);
      QrHistoryFirstOccurrences(rows);
      Http.Success(200, FirstCodes(rows, {}))
  }

  /**
    The rows `get_node_qr_codes` reads: the node's coded readings, newest first,
    the newest `limit` of them (100 by default).
  */
  function QrRowsRead(s: Store, nodeKey: Key, limit: Option<int>): (r: seq<Reading>)
    ensures SortedDesc(r, Stamp)
    ensures forall i :: 0 <= i < |r| ==> r[i] in s.readings && QrRowFor(r[i], nodeKey)
    ensures var n := LimitParam(limit, 100); var coded := Count(s.readings, QrRowsFor(nodeKey));
      |r| == (if 0 <= n < coded then n else coded)
    ensures forall x, i :: x in multiset(Filter(s.readings, QrRowsFor(nodeKey))) - multiset(r) && 0 <= i < |r| ==>
      Stamp(x) <= Stamp(r[i])
  {
    Query(s.readings, QrRowsFor(nodeKey), Stamp, LimitParam(limit, 100))
  }

  function QrRowsFor(nodeKey: Key): Reading -> bool {
    (x: Reading) => QrRowFor(x, nodeKey)
  }

  /**
    The QR history keeps, for each distinct code among the rows read, exactly
    the first row carrying it; the rows come out in the order they were read,
    with no code twice.
  */
  lemma QrHistoryFirstOccurrences(rows: seq<Reading>)
    ensures var r := FirstCodes(rows, {});
      Codes(r) == Dedup(Codes(rows))
      && IsSubsequence(r, rows)
      && (forall i :: 0 <= i < |r| ==> r[i] == FirstWith(rows, r[i].qrCode))
      && (forall i :: 0 <= i < |rows| ==> rows[i].qrCode in Codes(r))
  {
    FirstCodesDedup(rows, {});
    FirstCodesSubsequence(rows, {});
    var cs := Codes(rows);
    forall i | 0 <= i < |rows| ensures rows[i].qrCode in Codes(FirstCodes(rows, {})) {
      assert cs[i] == rows[i].qrCode;
    }
  }
}
