/**
  The alert endpoints: the filtered listing newest first, lookup, and the two
  status transitions, which the server applies whatever the alert's status.
*/
module AlertsApi {
  import opened Wrappers
  import opened Seqs
  import Http
  import opened LegacyModels
  import AlertsScreen

  /** The query parameters of `GET /alerts`. */
  datatype AlertQuery = AlertQuery(status: Option<string>, severity: Option<string>)

  predicate Matches(x: Alert, q: AlertQuery) {
    (Http.Given(q.status) ==> x.status == q.status.value)
    && (Http.Given(q.severity) ==> x.severity == q.severity.value)
  }

  function MatchesQuery(q: AlertQuery): Alert -> bool {
    (x: Alert) => Matches(x, q)
  }

  function Created(x: Alert): int { x.createdAt }

  /** An alert list and its `total` field. */
  datatype Listing = Listing(alerts: seq<Alert>, total: nat)

  /**
    `GET /alerts`: the matching alerts, newest first. When none match, the
    handler tries to seed random demonstration alerts and queries again;
    `afterSeeding` is the alert table once that attempt is over.
  */
  function ListAlerts(db: Db, q: AlertQuery, afterSeeding: seq<Alert>): (r: Listing)
    ensures r.total == |r.alerts| && SortedDesc(r.alerts, Created)
    ensures Count(db.alerts, MatchesQuery(q)) > 0 ==>
      multiset(r.alerts) == multiset(Filter(db.alerts, MatchesQuery(q)))
    ensures Count(db.alerts, MatchesQuery(q)) == 0 ==>
      multiset(r.alerts) == multiset(Filter(afterSeeding, MatchesQuery(q)))
  {
    var table := if Count(db.alerts, MatchesQuery(q)) > 0 then db.alerts else afterSeeding;
    var r := Query(table, MatchesQuery(q), Created, -1);
    Listing(r, |r|)
  }

  /** `GET /alerts/<id>` */
  function GetAlert(db: Db, id: int): (a: Http.Outcome<Alert>)
    ensures Find(db.alerts, AlertPk, id).None? <==> a == Http.Failure(404, NotFound)
    ensures a.Success? ==> a.code == 200 && a.value in db.alerts && a.value.id == id
  {
    match Find(db.alerts, AlertPk, id)
    case None => Http.Failure(404, NotFound)
    case Some(i) => Http.Success(200, db.alerts[i])
  }

  /** `POST /alerts/<id>/acknowledge`: the status becomes 'acknowledged', from any status. */
  function Acknowledge(db: Db, id: int): (a: Answer<Alert>)
    ensures Find(db.alerts, AlertPk, id).None? <==> a.reply == Http.Failure(404, NotFound)
    ensures a.reply.Failure? ==> a.db == db
    ensures a.reply.Success? ==>
      var i := Find(db.alerts, AlertPk, id).value; var x := a.reply.value;
      a.reply.code == 200 && a.db == db.(alerts := db.alerts[i := x])
      && x.status == "acknowledged" && x.(status := db.alerts[i].status) == db.alerts[i]
  {
    match Find(db.alerts, AlertPk, id)
    case None => Answer(Http.Failure(404, NotFound), db)
    case Some(i) =>
      var x := db.alerts[i].(status := "acknowledged");
      Answer(Http.Success(200, x), db.(alerts := db.alerts[i := x]))
  }

  /** `POST /alerts/<id>/resolve` at time `now`: the status becomes 'resolved' and `resolved_at` is `now`. */
  function Resolve(db: Db, id: int, now: int): (a: Answer<Alert>)
    ensures Find(db.alerts, AlertPk, id).None? <==> a.reply == Http.Failure(404, NotFound)
    ensures a.reply.Failure? ==> a.db == db
    ensures a.reply.Success? ==>
      var i := Find(db.alerts, AlertPk, id).value; var x := a.reply.value;
      a.reply.code == 200 && a.db == db.(alerts := db.alerts[i := x])
      && x.status == "resolved" && x.resolvedAt == Some(now)
      && x.(status := db.alerts[i].status, resolvedAt := db.alerts[i].resolvedAt) == db.alerts[i]
  {
    match Find(db.alerts, AlertPk, id)
    case None => Answer(Http.Failure(404, NotFound), db)
    case Some(i) =>
      var x := db.alerts[i].(status := "resolved", resolvedAt := Some(now));
      Answer(Http.Success(200, x), db.(alerts := db.alerts[i := x]))
  }

  /** Resolving again keeps the status 'resolved' and moves `resolved_at` to the later call. */
  lemma ResolveAgain(db: Db, id: int, t1: int, t2: int)
    requires Find(db.alerts, AlertPk, id).Some?
    ensures var a := Resolve(Resolve(db, id, t1).db, id, t2);
      a.reply.Success? && a.reply.value.status == "resolved" && a.reply.value.resolvedAt == Some(t2)
      && a.db == Resolve(db, id, t2).db
  {
    var i := Find(db.alerts, AlertPk, id).value;
    var once := Resolve(db, id, t1).db;
    assert once.alerts[i].id == id;
    assert Find(once.alerts, AlertPk, id) == Some(i) by {
      assert forall k :: 0 <= k < i ==> once.alerts[k] == db.alerts[k];
    }
  }

  /**
    Acknowledging a resolved alert reopens it as 'acknowledged' while its
    `resolved_at` stays set; the screen then offers Resolve on it again.
  */
  lemma AcknowledgeReopens(db: Db, id: int)
    requires Find(db.alerts, AlertPk, id).Some?
    requires var i := Find(db.alerts, AlertPk, id).value;
      db.alerts[i].status == "resolved" && db.alerts[i].resolvedAt.Some?
    ensures var x := Acknowledge(db, id).reply.value;
      x.status == "acknowledged" && x.resolvedAt.Some?
      && AlertsScreen.Actions(x.status) == {AlertsScreen.Resolve}
  {
  }

  /** The server's effect of a screen button. */
  function Apply(db: Db, id: int, act: AlertsScreen.Action, now: int): Answer<Alert> {
    match act
    case Acknowledge => Acknowledge(db, id)
    case Resolve => Resolve(db, id, now)
  }

  /**
    Every button the screen offers moves the alert forward: afterwards the row
    offers strictly fewer actions, so no sequence of clicks goes round in a
    circle.
  */
  lemma OfferedActionsShrink(db: Db, id: int, act: AlertsScreen.Action, now: int)
    requires Find(db.alerts, AlertPk, id).Some?
    requires act in AlertsScreen.Actions(db.alerts[Find(db.alerts, AlertPk, id).value].status)
    ensures var x := Apply(db, id, act, now).reply.value;
      AlertsScreen.Actions(x.status) < AlertsScreen.Actions(db.alerts[Find(db.alerts, AlertPk, id).value].status)
  {
    var st := db.alerts[Find(db.alerts, AlertPk, id).value].status;
    if act == AlertsScreen.Acknowledge {
      assert st == "active";
      assert AlertsScreen.Acknowledge in AlertsScreen.Actions(st);
      assert AlertsScreen.Acknowledge !in AlertsScreen.Actions("acknowledged");
    } else {
      assert AlertsScreen.Resolve in AlertsScreen.Actions(st);
      assert AlertsScreen.Actions("resolved") == {};
    }
  }
}
