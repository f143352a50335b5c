/**
  The site / gateway / node / sensor-reading tables of the IoT model, held as
  maps from primary key to row. Columns that requests may set freely are kept
  as a JSON object per row; the columns the uniqueness constraints and the
  foreign keys rest on are fields of their own.

  The default database is SQLite, which enforces UNIQUE and NOT NULL
  constraints at commit time but does not enforce foreign keys, so a commit
  that would break either is refused and rolled back while a dangling
  reference is stored.
*/
module IotModels {
  import opened Wrappers
  import opened Seqs
  import Json
  import Http

  /** A primary key: the UUID text `generate_uuid` gives each row. */
  type Key = string

  /** A site row; only its existence matters to the rules modelled here. */
  datatype Site = Site(attrs: Json.Object)

  /** A gateway row: its unique `gateway_id` code, and every other column by name (`site_id` among them). */
  datatype Gateway = Gateway(gatewayId: Json.Json, attrs: Json.Object)

  /** A node row: its per-gateway `node_id`, the primary key of its gateway, and every other column by name. */
  datatype Node = Node(nodeId: Json.Json, gatewayKey: Key, attrs: Json.Object)

  /** A sensor reading; timestamps are seconds. */
  datatype Reading = Reading(nodeKey: Key, timestamp: int, adcType: string, channel: int, qrCode: Option<string>)

  datatype Store = Store(
    sites: map<Key, Site>,
    gateways: map<Key, Gateway>,
    nodes: map<Key, Node>,
    readings: seq<Reading>)

  /** What an endpoint answers, and the tables after it. */
  datatype Answer<T> = Answer(reply: Http.Outcome<T>, store: Store)

  /** The `mac_address` column of a row; unset reads as null. */
  function Mac(attrs: Json.Object): Json.Json {
    Json.Get(attrs, "mac_address")
  }

  /** The `site_id` column of a gateway. */
  function SiteOf(g: Gateway): Json.Json {
    Json.Get(g.attrs, "site_id")
  }

  /** `Gateway.gateway_id` is unique. */
  predicate GatewayIdsUnique(gws: map<Key, Gateway>) {
    forall a, b :: a in gws && b in gws && a != b ==> gws[a].gatewayId != gws[b].gatewayId
  }

  /** `Gateway.mac_address` is unique; like every SQL unique column it may be null in several rows. */
  predicate GatewayMacsUnique(gws: map<Key, Gateway>) {
    forall a, b :: a in gws && b in gws && a != b && Mac(gws[a].attrs) != Json.JNull ==>
      Mac(gws[a].attrs) != Mac(gws[b].attrs)
  }

  /** The `unique_node_per_gateway` constraint on `(gateway_id, node_id)`. */
  predicate NodeIdsUnique(ns: map<Key, Node>) {
    forall a, b :: a in ns && b in ns && a != b ==>
      ns[a].gatewayKey != ns[b].gatewayKey || ns[a].nodeId != ns[b].nodeId
  }

  /** `Node.mac_address` is unique, nulls aside. */
  predicate NodeMacsUnique(ns: map<Key, Node>) {
    forall a, b :: a in ns && b in ns && a != b && Mac(ns[a].attrs) != Json.JNull ==>
      Mac(ns[a].attrs) != Mac(ns[b].attrs)
  }

  /** The `name` column of a row. */
  function Name(attrs: Json.Object): Json.Json {
    Json.Get(attrs, "name")
  }

  /** A gateway's `gateway_id`, `name` and `site_id` are declared `nullable=False`. */
  predicate GatewayFilled(g: Gateway) {
    g.gatewayId != Json.JNull && Name(g.attrs) != Json.JNull && SiteOf(g) != Json.JNull
  }

  /** A node's `node_id` and `name` are declared `nullable=False`; its `gateway_id` is a key and never null. */
  predicate NodeFilled(n: Node) {
    n.nodeId != Json.JNull && Name(n.attrs) != Json.JNull
  }

  /** Every NOT NULL column of the gateway and node tables is set. */
  predicate NotNull(s: Store) {
    (forall g :: g in s.gateways ==> GatewayFilled(s.gateways[g]))
    && (forall n :: n in s.nodes ==> NodeFilled(s.nodes[n]))
  }

  /** Every UNIQUE and NOT NULL constraint the IoT tables declare holds. */
  predicate Consistent(s: Store) {
    GatewayIdsUnique(s.gateways) && GatewayMacsUnique(s.gateways)
    && NodeIdsUnique(s.nodes) && NodeMacsUnique(s.nodes)
    && NotNull(s)
  }

  /**
    Adding a gateway row under a fresh key keeps every constraint when its code
    and its (non-null) MAC address are new and its NOT NULL columns are set.
  */
  lemma AddGatewayConsistent(s: Store, key: Key, g: Gateway)
    requires Consistent(s) && key !in s.gateways && GatewayFilled(g)
    requires forall k :: k in s.gateways ==> s.gateways[k].gatewayId != g.gatewayId
    requires Mac(g.attrs) != Json.JNull ==> forall k :: k in s.gateways ==> Mac(s.gateways[k].attrs) != Mac(g.attrs)
    ensures Consistent(s.(gateways := s.gateways[key := g]))
  {
    var t := s.(gateways := s.gateways[key := g]);
    assert GatewayIdsUnique(t.gateways) by {
      forall a, b | a in t.gateways && b in t.gateways && a != b
        ensures t.gateways[a].gatewayId != t.gateways[b].gatewayId
      {
        if a == key {
          assert b in s.gateways;
        } else if b == key {
          assert a in s.gateways;
        }
      }
    }
    assert GatewayMacsUnique(t.gateways) by {
      forall a, b | a in t.gateways && b in t.gateways && a != b && Mac(t.gateways[a].attrs) != Json.JNull
        ensures Mac(t.gateways[a].attrs) != Mac(t.gateways[b].attrs)
      {
        if a == key {
          assert b in s.gateways;
        } else if b == key {
          assert a in s.gateways;
        }
      }
    }
  }

  /**
    Adding a node row under a fresh key keeps every constraint when its
    `(gateway, node_id)` pair and its (non-null) MAC address are new and its
    NOT NULL columns are set.
  */
  lemma AddNodeConsistent(s: Store, key: Key, n: Node)
    requires Consistent(s) && key !in s.nodes && NodeFilled(n)
    requires forall k :: k in s.nodes ==> s.nodes[k].gatewayKey != n.gatewayKey || s.nodes[k].nodeId != n.nodeId
    requires Mac(n.attrs) != Json.JNull ==> forall k :: k in s.nodes ==> Mac(s.nodes[k].attrs) != Mac(n.attrs)
    ensures Consistent(s.(nodes := s.nodes[key := n]))
  {
    var t := s.(nodes := s.nodes[key := n]);
    assert NodeIdsUnique(t.nodes) by {
      forall a, b | a in t.nodes && b in t.nodes && a != b
        ensures t.nodes[a].gatewayKey != t.nodes[b].gatewayKey || t.nodes[a].nodeId != t.nodes[b].nodeId
      {
        if a == key {
          assert b in s.nodes;
        } else if b == key {
          assert a in s.nodes;
        }
      }
    }
    assert NodeMacsUnique(t.nodes) by {
      forall a, b | a in t.nodes && b in t.nodes && a != b && Mac(t.nodes[a].attrs) != Json.JNull
        ensures Mac(t.nodes[a].attrs) != Mac(t.nodes[b].attrs)
      {
        if a == key {
          assert b in s.nodes;
        } else if b == key {
          assert a in s.nodes;
        }
      }
    }
  }

  /** A node row with a NOT NULL column unset breaks the constraints wherever it is stored. */
  lemma UnfilledNodeRefused(s: Store, key: Key, n: Node)
    ensures !NodeFilled(n) ==> !Consistent(s.(nodes := s.nodes[key := n]))
  {
    assert key in s.nodes[key := n];
  }

  /** A gateway row with a NOT NULL column unset breaks the constraints wherever it is stored. */
  lemma UnfilledGatewayRefused(s: Store, key: Key, g: Gateway)
    ensures !GatewayFilled(g) ==> !Consistent(s.(gateways := s.gateways[key := g]))
  {
    assert key in s.gateways[key := g];
  }

  /** The response of a request whose commit the database refused: Flask's unhandled-exception page. */
  const ServerError := "Internal Server Error"

  /**
    `db.session.commit()`: the new tables are kept when they satisfy every unique
    and NOT NULL constraint; otherwise the request fails with 500 and nothing
    changes.
  */
  function Commit<T>(before: Store, after: Store, code: nat, value: T): (a: Answer<T>)
    ensures a.reply.Success? <==> Consistent(after)
    ensures a.reply.Success? ==> a.store == after && a.reply == Http.Success(code, value)
    ensures a.reply.Failure? ==> a.store == before && a.reply == Http.Failure(500, ServerError)
    ensures Consistent(before) ==> Consistent(a.store)
  {
    if Consistent(after) then Answer(Http.Success(code, value), after)
    else Answer(Http.Failure(500, ServerError), before)
  }

  /** `get_or_404`: Flask's not-found answer. */
  const NotFound := "Not Found"

  /** Deleting a gateway deletes its nodes (`cascade='all, delete-orphan'`); readings are not touched. */
  function DeleteGateway(s: Store, key: Key): (r: Store)
    ensures r.sites == s.sites && r.readings == s.readings
    ensures r.gateways == s.gateways - {key}
    ensures forall n :: n in r.nodes <==> n in s.nodes && s.nodes[n].gatewayKey != key
    ensures forall n :: n in r.nodes ==> r.nodes[n] == s.nodes[n]
  {
    s.(gateways := s.gateways - {key},
       nodes := map n | n in s.nodes && s.nodes[n].gatewayKey != key :: s.nodes[n])
  }

  /** Whether a gateway row belongs to the site with primary key `key`. */
  predicate OnSite(g: Gateway, key: Key) {
    SiteOf(g) == Json.JStr(key)
  }

  /** The gateways on the site with primary key `key`. */
  function SiteGateways(s: Store, key: Key): set<Key> {
    set g | g in s.gateways && OnSite(s.gateways[g], key)
  }

  /** Deleting a site deletes its gateways, and through them their nodes. */
  function DeleteSite(s: Store, key: Key): (r: Store)
    ensures r.sites == s.sites - {key} && r.readings == s.readings
    ensures r.gateways == s.gateways - SiteGateways(s, key)
    ensures forall n :: n in r.nodes <==> n in s.nodes && s.nodes[n].gatewayKey !in SiteGateways(s, key)
    ensures forall n :: n in r.nodes ==> r.nodes[n] == s.nodes[n]
  {
    var gone := SiteGateways(s, key);
    s.(sites := s.sites - {key},
       gateways := s.gateways - gone,
       nodes := map n | n in s.nodes && s.nodes[n].gatewayKey !in gone :: s.nodes[n])
  }

  /** `rows` is the node table as a query reads it: every row once, in the order the database picks. */
  predicate TableRows(s: Store, rows: seq<Node>) {
    (forall i :: 0 <= i < |rows| ==> rows[i] in s.nodes.Values)
    && (forall k :: k in s.nodes ==> s.nodes[k] in rows)
    && Distinct(rows)
  }

  /** Every node points at an existing gateway. */
  predicate NodesAttached(s: Store) {
    forall n :: n in s.nodes ==> s.nodes[n].gatewayKey in s.gateways
  }

  /** Every gateway points at an existing site. */
  predicate GatewaysAttached(s: Store) {
    forall g :: g in s.gateways ==> SiteOf(s.gateways[g]).JStr? && SiteOf(s.gateways[g]).s in s.sites
  }

  /** The cascade leaves no node behind without its gateway, and only removes rows. */
  lemma DeleteGatewayKeepsAttached(s: Store, key: Key)
    requires NodesAttached(s) && Consistent(s)
    ensures NodesAttached(DeleteGateway(s, key)) && Consistent(DeleteGateway(s, key))
  {
  }

  /** Deleting a site leaves every remaining gateway on a remaining site and every remaining node on a remaining gateway. */
  lemma DeleteSiteKeepsAttached(s: Store, key: Key)
    requires NodesAttached(s) && GatewaysAttached(s) && Consistent(s)
    ensures var r := DeleteSite(s, key);
      NodesAttached(r) && GatewaysAttached(r) && Consistent(r)
  {
    var r := DeleteSite(s, key);
    forall g | g in r.gateways ensures SiteOf(r.gateways[g]).JStr? && SiteOf(r.gateways[g]).s in r.sites {
      assert SiteOf(s.gateways[g]) != Json.JStr(key);
    }
  }

  /** How long `cleanup_old_data` keeps readings by default, in days. */
  const RetentionDays := 7

  /** Seconds in a day, as `timedelta(days=1)` counts them. */
  const DaySeconds := 86400

  /** The readings `cleanup_old_data` keeps: those at or after the cutoff. */
  function KeptFrom(cutoff: int): Reading -> bool {
    (x: Reading) => x.timestamp >= cutoff
  }

  /** The readings it deletes: `SensorData.timestamp < cutoff_date`. */
  function OlderThan(cutoff: int): Reading -> bool {
    (x: Reading) => x.timestamp < cutoff
  }

  /**
    `cleanup_old_data(days)`: deletes the readings strictly older than
    `now - days` and answers how many it deleted.
  */
  function CleanupOldData(s: Store, now: int, days: int): (r: (Store, nat))
    ensures r.0.sites == s.sites && r.0.gateways == s.gateways && r.0.nodes == s.nodes
    ensures forall i :: 0 <= i < |r.0.readings| ==> r.0.readings[i].timestamp >= now - days * DaySeconds
  {
    var cutoff := now - days * DaySeconds;
    (s.(readings := Filter(s.readings, KeptFrom(cutoff))), Count(s.readings, OlderThan(cutoff)))
  }

  /**
    The cleanup keeps every reading at or after the cutoff, in order, and the
    count it answers is exactly how many readings went away.
  */
  lemma CleanupAccounts(s: Store, now: int, days: int)
    ensures var (t, deleted) := CleanupOldData(s, now, days);
      |t.readings| + deleted == |s.readings|
      && (forall i :: 0 <= i < |s.readings| && s.readings[i].timestamp >= now - days * DaySeconds ==> s.readings[i] in t.readings)
      && (forall x :: x in t.readings ==> x in s.readings)
  {
    var cutoff := now - days * DaySeconds;
    KeptPlusDeleted(s.readings, cutoff);
  }

  lemma {:induction false} KeptPlusDeleted(rs: seq<Reading>, cutoff: int)
    ensures |Filter(rs, KeptFrom(cutoff))| + Count(rs, OlderThan(cutoff)) == |rs|
  {
    if |rs| > 0 {
      KeptPlusDeleted(rs[1..], cutoff);
    }
  }
}
