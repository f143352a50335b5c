/**
  The original device / sensor / alert / user tables, kept next to the IoT
  tables. Each table is the sequence of its rows in primary-key order, which is
  the order an unordered SQLite query returns them in. Integer primary keys are
  handed out as one more than the largest in use.

  As for the IoT tables, SQLite enforces UNIQUE and NOT NULL at commit time but
  not foreign keys.
*/
module LegacyModels {
  import opened Wrappers
  import opened Seqs
  import Json
  import Http

  /** A device row. Columns a request may fill are kept as the JSON values it sent; times are seconds. */
  datatype Device = Device(
    id: int,
    deviceId: Json.Json,
    name: Json.Json,
    kind: Json.Json,
    mac: Json.Json,
    gatewayId: Json.Json,
    status: Json.Json,
    firmware: Json.Json,
    lastSeen: Option<int>,
    createdAt: int,
    updatedAt: int)

  /** A sensor reading row; its floating-point value is not modelled. */
  datatype Sensor = Sensor(id: int, deviceId: int, sensorType: string, unit: Option<string>, timestamp: int)

  /** An alert row; `deviceId` is a nullable reference to a device. */
  datatype Alert = Alert(
    id: int,
    deviceId: Option<int>,
    alertType: string,
    severity: string,
    message: Option<string>,
    status: string,
    createdAt: int,
    resolvedAt: Option<int>)

  datatype User = User(id: int, username: string, email: string, passwordHash: string, role: string, createdAt: int)

  datatype Db = Db(devices: seq<Device>, sensors: seq<Sensor>, alerts: seq<Alert>, users: seq<User>)

  /** What an endpoint answers, and the tables after it. */
  datatype Answer<T> = Answer(reply: Http.Outcome<T>, db: Db)

  function DevicePk(d: Device): int { d.id }
  function DeviceCode(d: Device): Json.Json { d.deviceId }
  function DeviceMac(d: Device): Json.Json { d.mac }
  function SensorPk(x: Sensor): int { x.id }
  function AlertPk(x: Alert): int { x.id }
  function UserPk(u: User): int { u.id }
  function Username(u: User): string { u.username }
  function Email(u: User): string { u.email }

  /** Every row counts for a NOT NULL unique column. */
  function Always<T>(x: T): bool { true }

  /** A nullable unique column only compares the rows where it is set. */
  function HasMac(d: Device): bool { d.mac != Json.JNull }

  /** `device_id`, `name` and `type` are declared `nullable=False`. */
  predicate DevicesNotNull(ds: seq<Device>) {
    forall i :: 0 <= i < |ds| ==>
      ds[i].deviceId != Json.JNull && ds[i].name != Json.JNull && ds[i].kind != Json.JNull
  }

  /** Every primary key, UNIQUE and NOT NULL constraint the four tables declare. */
  predicate Consistent(db: Db) {
    UniqueWhere(db.devices, DevicePk, Always) && UniqueWhere(db.devices, DeviceCode, Always)
    && UniqueWhere(db.devices, DeviceMac, HasMac) && DevicesNotNull(db.devices)
    && UniqueWhere(db.sensors, SensorPk, Always) && UniqueWhere(db.alerts, AlertPk, Always)
    && UniqueWhere(db.users, UserPk, Always) && UniqueWhere(db.users, Username, Always)
    && UniqueWhere(db.users, Email, Always)
  }

  /** The response of a request whose commit the database refused. */
  const ServerError := "Internal Server Error"

  /** `get_or_404`: Flask's not-found answer. */
  const NotFound := "Not Found"

  /** `db.session.commit()`: kept when every constraint holds, else 500 and nothing changes. */
  function Commit<T>(before: Db, after: Db, code: nat, value: T): (a: Answer<T>)
    ensures a.reply.Success? <==> Consistent(after)
    ensures a.reply.Success? ==> a.db == after && a.reply == Http.Success(code, value)
    ensures a.reply.Failure? ==> a.db == before && a.reply == Http.Failure(500, ServerError)
    ensures Consistent(before) ==> Consistent(a.db)
  {
    if Consistent(after) then Answer(Http.Success(code, value), after)
    else Answer(Http.Failure(500, ServerError), before)
  }

  /** The position of the row whose primary key is `k` (`query.get(k)`), the first one if the keys repeat. */
  function Find<T>(s: seq<T>, pk: T -> int, k: int): (r: Option<nat>)
    ensures r.Some? ==> r.value < |s| && pk(s[r.value]) == k
    ensures r.Some? ==> forall i :: 0 <= i < r.value ==> pk(s[i]) != k
    ensures r.None? <==> forall i :: 0 <= i < |s| ==> pk(s[i]) != k
  {
    if |s| == 0 then None
    else if pk(s[0]) == k then Some(0)
    else match Find(s[1..], pk, k)
      case None => None
      case Some(j) => Some(j + 1)
  }

  /**
    The key SQLite gives the next row of a table: one more than the largest
    key in use, 1 for an empty table (keys start at 1).
  */
  function NextId<T>(s: seq<T>, pk: T -> int): (r: int)
    ensures r >= 1
    ensures forall i :: 0 <= i < |s| ==> pk(s[i]) < r
  {
    if |s| == 0 then 1
    else
      var m := NextId(s[1..], pk);
      assert forall i :: 1 <= i < |s| ==> pk(s[i]) < m by {
        assert forall i :: 1 <= i < |s| ==> s[i] == s[1..][i - 1];
      }
      if pk(s[0]) >= m then pk(s[0]) + 1 else m
  }

  /** Appending a row whose key exceeds every key in use keeps the key unique. */
  lemma AppendFreshKey<T>(s: seq<T>, pk: T -> int, x: T)
    requires UniqueWhere(s, pk, Always)
    requires forall i :: 0 <= i < |s| ==> pk(s[i]) < pk(x)
    ensures UniqueWhere(s + [x], pk, Always)
  {
    var t := s + [x];
    forall i, j | 0 <= i < j < |t| ensures pk(t[i]) != pk(t[j]) {
      if j == |s| {
        assert t[i] == s[i];
      } else {
        assert t[i] == s[i] && t[j] == s[j];
      }
    }
  }

  /** The column default of `Device.status`. */
  const DefaultDeviceStatus := "offline"

  function OtherDevice(id: int): Device -> bool {
    (d: Device) => d.id != id
  }

  function NotOfDevice(id: int): Sensor -> bool {
    (x: Sensor) => x.deviceId != id
  }

  /**
    Deleting a device deletes its sensor rows (`cascade='all, delete-orphan'`);
    its alerts stay, with their device reference cleared, which is what the
    ORM does for a relationship without a delete cascade. Other devices that
    name it as their gateway keep the dangling number.
  */
  function DeleteDevice(db: Db, id: int): (r: Db)
    ensures forall d :: d in r.devices <==> d in db.devices && d.id != id
    ensures forall x :: x in r.sensors <==> x in db.sensors && x.deviceId != id
    ensures |r.alerts| == |db.alerts|
    ensures forall i :: 0 <= i < |r.alerts| ==>
      r.alerts[i].deviceId != Some(id)
      && r.alerts[i].(deviceId := db.alerts[i].deviceId) == db.alerts[i]
      && (db.alerts[i].deviceId != Some(id) ==> r.alerts[i] == db.alerts[i])
    ensures r.users == db.users
  {
    var devices := Filter(db.devices, OtherDevice(id));
    var sensors := Filter(db.sensors, NotOfDevice(id));
    assert forall d :: d in db.devices && d.id != id ==> d in devices by {
      forall d | d in db.devices && d.id != id ensures d in devices {
        var i :| 0 <= i < |db.devices| && db.devices[i] == d;
        assert OtherDevice(id)(db.devices[i]);
      }
    }
    assert forall x :: x in db.sensors && x.deviceId != id ==> x in sensors by {
      forall x | x in db.sensors && x.deviceId != id ensures x in sensors {
        var i :| 0 <= i < |db.sensors| && db.sensors[i] == x;
        assert NotOfDevice(id)(db.sensors[i]);
      }
    }
    Db(devices, sensors,
       seq(|db.alerts|, i requires 0 <= i < |db.alerts| =>
         if db.alerts[i].deviceId == Some(id) then db.alerts[i].(deviceId := None) else db.alerts[i]),
       db.users)
  }

  /** Deleting a device never breaks a constraint, so it needs no commit check. */
  lemma DeleteDeviceConsistent(db: Db, id: int)
    requires Consistent(db)
    ensures Consistent(DeleteDevice(db, id))
  {
    var r := DeleteDevice(db, id);
    assert r.devices == Filter(db.devices, OtherDevice(id));
    assert r.sensors == Filter(db.sensors, NotOfDevice(id));
    FilterUnique(db.devices, DevicePk, Always, OtherDevice(id));
    FilterUnique(db.devices, DeviceCode, Always, OtherDevice(id));
    FilterUnique(db.devices, DeviceMac, HasMac, OtherDevice(id));
    FilterUnique(db.sensors, SensorPk, Always, NotOfDevice(id));
    assert DevicesNotNull(r.devices) by {
      forall i | 0 <= i < |r.devices|
        ensures r.devices[i].deviceId != Json.JNull && r.devices[i].name != Json.JNull && r.devices[i].kind != Json.JNull
      {
        assert r.devices[i] in db.devices;
      }
    }
    assert UniqueWhere(r.alerts, AlertPk, Always) by {
      forall i, j | 0 <= i < j < |r.alerts| ensures AlertPk(r.alerts[i]) != AlertPk(r.alerts[j]) {
        assert r.alerts[i].id == db.alerts[i].id && r.alerts[j].id == db.alerts[j].id;
      }
    }
  }

  /** A device whose `gateway_id` column holds the key of device `id`. */
  function AttachedTo(id: int): Device -> bool {
    (d: Device) => d.gatewayId == Json.JInt(id)
  }

  /** The devices whose `gateway_id` column holds the key of device `id`. */
  function Attached(ds: seq<Device>, id: int): (r: seq<Device>)
    ensures forall i :: 0 <= i < |r| ==> r[i] in ds && r[i].gatewayId == Json.JInt(id)
    ensures forall i :: 0 <= i < |ds| && ds[i].gatewayId == Json.JInt(id) ==> ds[i] in r
  {
    Filter(ds, AttachedTo(id))
  }

  /** A device whose `status` column is `st`. */
  function StatusIs(st: string): Device -> bool {
    (d: Device) => d.status == Json.JStr(st)
  }

  /** A device whose `type` column is `k`. */
  function KindIs(k: string): Device -> bool {
    (d: Device) => d.kind == Json.JStr(k)
  }
}
