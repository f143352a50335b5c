/**
  The device endpoints: the filtered listing, creation with its defaults and
  its duplicate check, the three-field update, deletion, and the recent sensor
  history of a device.
*/
module DevicesApi {
  import opened Wrappers
  import opened Seqs
  import Json
  import Http
  import opened LegacyModels

  /** The query parameters of `GET /devices`. */
  datatype DeviceQuery = DeviceQuery(kind: Option<string>, status: Option<string>)

  /** Each filter applies only when its parameter is given and not empty. */
  predicate Matches(d: Device, q: DeviceQuery) {
    (Http.Given(q.kind) ==> d.kind == Json.JStr(q.kind.value))
    && (Http.Given(q.status) ==> d.status == Json.JStr(q.status.value))
  }

  function MatchesQuery(q: DeviceQuery): Device -> bool {
    (d: Device) => Matches(d, q)
  }

  /** A list answer and its `total` field. */
  datatype Listing<T> = Listing(items: seq<T>, total: nat)

  /**
    How the seeding attempt of `GET /devices` ends, with the tables it leaves.
    `Seeded`: the seeding committed and the session answers the second query.
    `Broken`: the seeding raised part-way. It commits the three gateways first
    and then adds `Sensor` rows whose `device_id` is still unset, which the
    NOT NULL column refuses; on a table that already holds them, `GW-01`
    repeats a unique `device_id`. The exception is caught, but the query in
    the `except` branch runs on a session that was never rolled back, so the
    request ends in a 500, while whatever was committed before stays.
  */
  datatype Seeding = Seeded(db: Db) | Broken(db: Db)

  /**
    `GET /devices`. When nothing matches, the handler tries to seed the table
    with random demonstration devices; the outcome of that attempt is the
    parameter `seeding`.
  */
  function ListDevices(db: Db, q: DeviceQuery, seeding: Seeding): (a: Answer<Listing<Device>>)
    ensures a.reply.Success? ==> a.reply.code == 200 && a.reply.value.total == |a.reply.value.items|
    ensures a.reply.Failure? ==> a.reply == Http.Failure(500, ServerError)
    ensures Count(db.devices, MatchesQuery(q)) > 0 ==>
      a.reply.Success? && a.db == db
      && (forall d :: d in a.reply.value.items <==> d in db.devices && Matches(d, q))
      && IsSubsequence(a.reply.value.items, db.devices)
      && |a.reply.value.items| == Count(db.devices, MatchesQuery(q))
    ensures Count(db.devices, MatchesQuery(q)) == 0 ==>
      a.db == seeding.db && (a.reply.Failure? <==> seeding.Broken?)
    ensures Count(db.devices, MatchesQuery(q)) == 0 && seeding.Seeded? ==>
      (forall d :: d in a.reply.value.items <==> d in seeding.db.devices && Matches(d, q))
      && IsSubsequence(a.reply.value.items, seeding.db.devices)
      && |a.reply.value.items| == Count(seeding.db.devices, MatchesQuery(q))
  {
    if Count(db.devices, MatchesQuery(q)) > 0 then
      Answer(Http.Success(200, Listed(db.devices, q)), db)
    else
      match seeding
      case Broken(after) => Answer(Http.Failure(500, ServerError), after)
      case Seeded(after) => Answer(Http.Success(200, Listed(after.devices, q)), after)
  }

  /**
    A seeding that breaks still leaves its committed rows: the next unfiltered
    `GET /devices` lists them.
  */
  lemma BrokenSeedingListedLater(db: Db, q: DeviceQuery, after: Db, next: Seeding)
    requires Count(db.devices, MatchesQuery(q)) == 0 && |after.devices| > 0
    ensures ListDevices(db, q, Broken(after)).reply == Http.Failure(500, ServerError)
    ensures ListDevices(ListDevices(db, q, Broken(after)).db, DeviceQuery(None, None), next).reply
         == Http.Success(200, Listing(after.devices, |after.devices|))
  {
    NoFiltersListAll(after, next);
  }

  /** The rows of `table` that match the query, in table order, and their number. */
  function Listed(table: seq<Device>, q: DeviceQuery): (r: Listing<Device>)
    ensures r.total == |r.items|
    ensures forall d :: d in r.items <==> d in table && Matches(d, q)
    ensures IsSubsequence(r.items, table) && |r.items| == Count(table, MatchesQuery(q))
  {
    var items := Filter(table, MatchesQuery(q));
    assert forall d :: d in table && Matches(d, q) ==> d in items by {
      forall d | d in table && Matches(d, q) ensures d in items {
        var i :| 0 <= i < |table| && table[i] == d;
        assert MatchesQuery(q)(table[i]);
      }
    }
    FilterSubsequence(table, MatchesQuery(q));
    Listing(items, |items|)
  }

  /** Without filters a non-empty table is listed whole, in key order. */
  lemma NoFiltersListAll(db: Db, seeding: Seeding)
    requires |db.devices| > 0
    ensures ListDevices(db, DeviceQuery(None, None), seeding) == Answer(Http.Success(200, Listing(db.devices, |db.devices|)), db)
  {
    var q := DeviceQuery(None, None);
    FilterAll(db.devices, MatchesQuery(q));
  }

  /** A device and its sensor rows, as `get_device` shows them. */
  datatype DeviceDetail = DeviceDetail(device: Device, sensors: seq<Sensor>)

  function OfDevice(id: int): Sensor -> bool {
    (x: Sensor) => x.deviceId == id
  }

  /** `GET /devices/<id>` */
  function GetDevice(db: Db, id: int): (a: Http.Outcome<DeviceDetail>)
    ensures Find(db.devices, DevicePk, id).None? <==> a == Http.Failure(404, NotFound)
    ensures a.Success? ==>
      a.code == 200 && a.value.device in db.devices && a.value.device.id == id
      && (forall x :: x in a.value.sensors <==> x in db.sensors && x.deviceId == id)
  {
    match Find(db.devices, DevicePk, id)
    case None => Http.Failure(404, NotFound)
    case Some(i) =>
      var sensors := Filter(db.sensors, OfDevice(id));
      assert forall x :: x in db.sensors && x.deviceId == id ==> x in sensors by {
        forall x | x in db.sensors && x.deviceId == id ensures x in sensors {
          var k :| 0 <= k < |db.sensors| && db.sensors[k] == x;
          assert OfDevice(id)(db.sensors[k]);
        }
      }
      Http.Success(200, DeviceDetail(db.devices[i], sensors))
  }

  const CreateRequired := "device_id and name are required"
  const DeviceExists := "Device already exists"

  /** `not data or not data.get('device_id') or not data.get('name')` refuses the request. */
  predicate CreateGuard(body: Option<Json.Object>) {
    !Json.Blank(body) && Json.Truthy(Json.Get(body.value, "device_id")) && Json.Truthy(Json.Get(body.value, "name"))
  }

  /** Some device already carries this `device_id`. */
  predicate CodeInUse(db: Db, code: Json.Json) {
    exists i :: 0 <= i < |db.devices| && db.devices[i].deviceId == code
  }

  /**
    The row `create_device` builds from a body that passed the guard. A null
    `status` is left out of the INSERT and takes the column default; `type` has
    no column default, so a null one stays null.
  */
  function NewDevice(db: Db, d: Json.Object, now: int): Device
    requires "device_id" in d && "name" in d
  {
    Device(NextId(db.devices, DevicePk), d["device_id"], d["name"],
      Json.GetOr(d, "type", Json.JStr("node")), Json.Get(d, "mac_address"), Json.Get(d, "gateway_id"),
      Json.Inserted(Json.Get(d, "status"), Json.JStr(DefaultDeviceStatus)), Json.Get(d, "firmware_version"),
      Some(now), now, now)
  }

  /** `POST /devices` at time `now`. */
  function CreateDevice(db: Db, body: Option<Json.Object>, now: int): (a: Answer<Device>)
    ensures (a.reply.Failure? && a.reply.code == 400) <==> !CreateGuard(body)
    ensures CreateGuard(body) ==>
      (a.reply == Http.Failure(409, DeviceExists) <==> CodeInUse(db, body.value["device_id"]))
    ensures a.reply.Failure? ==> a.db == db
    ensures a.reply.Success? ==>
      var v := a.reply.value;
      a.reply.code == 201 && a.db == db.(devices := db.devices + [v])
      && (forall i :: 0 <= i < |db.devices| ==> db.devices[i].id != v.id)
      && v.deviceId == body.value["device_id"] && v.name == body.value["name"]
      && v.lastSeen == Some(now) && v.createdAt == now && v.updatedAt == now
      && v.mac == Json.Get(body.value, "mac_address") && v.gatewayId == Json.Get(body.value, "gateway_id")
      && v.firmware == Json.Get(body.value, "firmware_version") && v.status != Json.JNull
    ensures Consistent(db) ==> Consistent(a.db)
  {
    if !CreateGuard(body) then Answer(Http.Failure(400, CreateRequired), db)
    else if CodeInUse(db, body.value["device_id"]) then Answer(Http.Failure(409, DeviceExists), db)
    else
      var v := NewDevice(db, body.value, now);
      Commit(db, db.(devices := db.devices + [v]), 201, v)
  }

  /**
    A created device is a node unless the body names a type, and offline unless
    the body names a non-null status.
  */
  lemma CreateDeviceDefaults(db: Db, body: Option<Json.Object>, now: int)
    requires CreateDevice(db, body, now).reply.Success?
    ensures var v := CreateDevice(db, body, now).reply.value; var d := body.value;
      ("type" !in d ==> v.kind == Json.JStr("node"))
      && ("type" in d ==> v.kind == d["type"])
      && (("status" !in d || d["status"] == Json.JNull) ==> v.status == Json.JStr("offline"))
      && ("status" in d && d["status"] != Json.JNull ==> v.status == d["status"])
  {
  }

  /**
    The 409 check covers `device_id`; the request still fails with 500 when the
    body repeats a MAC address in use or sends `type` as null.
  */
  lemma CreateDeviceCommits(db: Db, body: Option<Json.Object>, now: int)
    requires Consistent(db) && CreateGuard(body) && !CodeInUse(db, body.value["device_id"])
    requires Json.GetOr(body.value, "type", Json.JStr("node")) != Json.JNull
    requires var m := Json.Get(body.value, "mac_address");
      m == Json.JNull || forall i :: 0 <= i < |db.devices| ==> db.devices[i].mac != m
    ensures CreateDevice(db, body, now).reply.Success?
  {
    var d := body.value;
    var v := NewDevice(db, d, now);
    var ds := db.devices + [v];
    AppendFreshKey(db.devices, DevicePk, v);
    assert UniqueWhere(ds, DeviceCode, Always) by {
      forall i, j | 0 <= i < j < |ds| ensures DeviceCode(ds[i]) != DeviceCode(ds[j]) {
        assert ds[i] == db.devices[i];
        if j < |db.devices| {
          assert ds[j] == db.devices[j];
        }
      }
    }
    assert UniqueWhere(ds, DeviceMac, HasMac) by {
      forall i, j | 0 <= i < j < |ds| && HasMac(ds[i]) && HasMac(ds[j]) ensures DeviceMac(ds[i]) != DeviceMac(ds[j]) {
        assert ds[i] == db.devices[i];
        if j < |db.devices| {
          assert ds[j] == db.devices[j];
        }
      }
    }
    assert DevicesNotNull(ds) by {
      assert Json.Truthy(d["device_id"]) && Json.Truthy(d["name"]);
      forall i | 0 <= i < |ds| ensures ds[i].deviceId != Json.JNull && ds[i].name != Json.JNull && ds[i].kind != Json.JNull {
        if i < |db.devices| {
          assert ds[i] == db.devices[i];
        }
      }
    }
  }

  /** A body sending `type: null` passes the guard but breaks `NOT NULL`, so the insert fails with 500. */
  lemma NullTypeRefused(db: Db, body: Option<Json.Object>, now: int)
    requires CreateGuard(body) && !CodeInUse(db, body.value["device_id"])
    requires "type" in body.value && body.value["type"] == Json.JNull
    ensures CreateDevice(db, body, now) == Answer(Http.Failure(500, ServerError), db)
  {
    var v := NewDevice(db, body.value, now);
    var ds := db.devices + [v];
    assert ds[|db.devices|] == v && v.kind == Json.JNull;
    assert !DevicesNotNull(ds);
  }

  /** The three columns `update_device` may change, each only when the body has it. */
  function Patch(v: Device, d: Json.Object, now: int): (w: Device)
    ensures w.name == Json.GetOr(d, "name", v.name)
    ensures w.status == Json.GetOr(d, "status", v.status)
    ensures w.firmware == Json.GetOr(d, "firmware_version", v.firmware)
    ensures w.updatedAt == now
    ensures w.(name := v.name, status := v.status, firmware := v.firmware, updatedAt := v.updatedAt) == v
  {
    v.(name := Json.GetOr(d, "name", v.name),
       status := Json.GetOr(d, "status", v.status),
       firmware := Json.GetOr(d, "firmware_version", v.firmware),
       updatedAt := now)
  }

  /**
    `PUT /devices/<id>` at time `now`: `updated_at` moves to `now` even when
    the body names none of the three columns. A missing body fails on
    `'name' in data` with 500.
  */
  function UpdateDevice(db: Db, id: int, body: Option<Json.Object>, now: int): (a: Answer<Device>)
    ensures Find(db.devices, DevicePk, id).None? ==> a == Answer(Http.Failure(404, NotFound), db)
    ensures Find(db.devices, DevicePk, id).Some? && body.None? ==> a == Answer(Http.Failure(500, ServerError), db)
    ensures a.reply.Failure? ==> a.db == db
    ensures a.reply.Success? ==>
      var i := Find(db.devices, DevicePk, id).value; var v := db.devices[i]; var w := a.reply.value;
      a.reply.code == 200 && a.db == db.(devices := db.devices[i := w])
      && w.updatedAt == now
      && w.id == v.id && w.deviceId == v.deviceId && w.kind == v.kind && w.mac == v.mac
      && w.gatewayId == v.gatewayId && w.lastSeen == v.lastSeen && w.createdAt == v.createdAt
      && ("name" in body.value ==> w.name == body.value["name"]) && ("name" !in body.value ==> w.name == v.name)
      && ("status" in body.value ==> w.status == body.value["status"]) && ("status" !in body.value ==> w.status == v.status)
      && ("firmware_version" in body.value ==> w.firmware == body.value["firmware_version"])
      && ("firmware_version" !in body.value ==> w.firmware == v.firmware)
    ensures Consistent(db) ==> Consistent(a.db)
  {
    match Find(db.devices, DevicePk, id)
    case None => Answer(Http.Failure(404, NotFound), db)
    case Some(i) =>
      if body.None? then Answer(Http.Failure(500, ServerError), db)
      else
        var w := Patch(db.devices[i], body.value, now);
        Commit(db, db.(devices := db.devices[i := w]), 200, w)
  }
  /**
    On a consistent table an update of an existing device is refused exactly
    when it sets `name` to null: the other columns it writes are nullable or
    not unique.
  */
  lemma UpdateDeviceCommits(db: Db, id: int, body: Json.Object, now: int)
    requires Consistent(db) && Find(db.devices, DevicePk, id).Some?
    ensures UpdateDevice(db, id, Some(body), now).reply.Success? <==> ("name" !in body || body["name"] != Json.JNull)
  {
    var i := Find(db.devices, DevicePk, id).value;
    var v := db.devices[i];
    var w := Patch(v, body, now);
    var ds := db.devices[i := w];
    ReplaceUnique(db.devices, i, w, DevicePk, Always);
    ReplaceUnique(db.devices, i, w, DeviceCode, Always);
    ReplaceUnique(db.devices, i, w, DeviceMac, HasMac);
    if "name" !in body || body["name"] != Json.JNull {
      assert DevicesNotNull(ds) by {
        forall k | 0 <= k < |ds| ensures ds[k].deviceId != Json.JNull && ds[k].name != Json.JNull && ds[k].kind != Json.JNull {
          if k != i {
            assert ds[k] == db.devices[k];
          }
        }
      }
    } else {
      assert ds[i].name == Json.JNull;
    }
  }


  /** `DELETE /devices/<id>` */
  function DeleteDeviceEndpoint(db: Db, id: int): (a: Answer<()>)
    ensures Find(db.devices, DevicePk, id).None? ==> a == Answer(Http.Failure(404, NotFound), db)
    ensures Find(db.devices, DevicePk, id).Some? ==>
      (a.reply == Http.Success(200, ())
       && (forall d :: d in a.db.devices ==> d.id != id)
       && (forall x :: x in a.db.sensors ==> x.deviceId != id)
       && (forall d :: d in a.db.devices <==> d in db.devices && d.id != id)
       && (forall x :: x in a.db.sensors <==> x in db.sensors && x.deviceId != id)
       && |a.db.alerts| == |db.alerts|
       && (forall i :: 0 <= i < |a.db.alerts| ==>
             a.db.alerts[i].deviceId != Some(id)
             && a.db.alerts[i].(deviceId := db.alerts[i].deviceId) == db.alerts[i]
             && (db.alerts[i].deviceId != Some(id) ==> a.db.alerts[i] == db.alerts[i]))
       && a.db.users == db.users
       && a.db == DeleteDevice(db, id))
    ensures Consistent(db) ==> Consistent(a.db)
  {
    match Find(db.devices, DevicePk, id)
    case None => Answer(Http.Failure(404, NotFound), db)
    case Some(_) =>
      assert Consistent(db) ==> Consistent(DeleteDevice(db, id)) by {
        if Consistent(db) {
          DeleteDeviceConsistent(db, id);
        }
      }
      Answer(Http.Success(200, ()), DeleteDevice(db, id))
  }

  function SensorTime(x: Sensor): int { x.timestamp }

  /** How many readings the sensor history returns at most. */
  const SensorLimit := 100

  /** `GET /devices/<id>/sensors`: the device's newest readings, at most 100, and how many were returned. */
  function DeviceSensors(db: Db, id: int): (a: Http.Outcome<Listing<Sensor>>)
    ensures Find(db.devices, DevicePk, id).None? <==> a == Http.Failure(404, NotFound)
    ensures a.Success? ==>
      var r := a.value.items;
      a.code == 200 && a.value.total == |r| && SortedDesc(r, SensorTime)
      && (forall i :: 0 <= i < |r| ==> r[i] in db.sensors && r[i].deviceId == id)
      && |r| == (if Count(db.sensors, OfDevice(id)) < SensorLimit then Count(db.sensors, OfDevice(id)) else SensorLimit)
      && multiset(r) <= multiset(Filter(db.sensors, OfDevice(id)))
      && (forall x, i :: x in multiset(Filter(db.sensors, OfDevice(id))) - multiset(r) && 0 <= i < |r| ==>
            SensorTime(x) <= SensorTime(r[i]))
  {
    match Find(db.devices, DevicePk, id)
    case None => Http.Failure(404, NotFound)
    case Some(_) =>
      var r := Query(db.sensors, OfDevice(id), SensorTime, SensorLimit);
      Http.Success(200, Listing(r, |r|))
  }
}
