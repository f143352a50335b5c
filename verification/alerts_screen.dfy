/**
  The alerts screen: a list reloaded wholesale for the chosen status filter and
  on every `alert:new` push, the per-row actions, and the chip colours.
*/
module AlertsScreen {
  import opened Wrappers
  import WebSocket
  import Ui

  /** An alert as the list endpoint returns it. */
  datatype Alert = Alert(
    id: nat,
    deviceId: Option<nat>,
    alertType: string,
    severity: string,
    message: string,
    status: string,
    createdAt: string,
    resolvedAt: Option<string>)

  /** The status filter; the screen opens on `Active`. */
  datatype Filter = All | Active | Resolved

  const InitialFilter := Active

  const AlertEvent: WebSocket.EventName := "alert:new"

  /** `filter !== 'all' ? { status: filter } : {}` */
  function StatusParam(f: Filter): (p: Option<string>)
    ensures p.None? <==> f == All
    ensures f == Active ==> p == Some("active")
    ensures f == Resolved ==> p == Some("resolved")
  {
    match f
    case All => None
    case Active => Some("active")
    case Resolved => Some("resolved")
  }

  /**
    The screen: the filter, the cached list, and the `alert:new` handler the
    latest run of the registration effect installed (a new closure per run).
  */
  datatype Screen = Screen(filter: Filter, alerts: Ui.Cached<seq<Alert>>, handler: WebSocket.Callback)

  /**
    The handler: it ignores the payload and reloads the list with the filter
    its closure saw, which is the screen's filter because the closure is
    replaced whenever the filter changes. `server` answers a request with the
    given `status` parameter.
  */
  function OnNewAlert<P>(s: Screen, payload: P, server: Option<string> -> Ui.Fetched<seq<Alert>>): (s': Screen)
    ensures s'.filter == s.filter && s'.handler == s.handler
    ensures !s'.alerts.loading
    ensures server(StatusParam(s.filter)).Loaded? ==> s'.alerts.data == server(StatusParam(s.filter)).data
    ensures server(StatusParam(s.filter)).FetchError? ==> s'.alerts.data == s.alerts.data
  {
    s.(alerts := Ui.Settle(s.alerts, server(StatusParam(s.filter))))
  }

  /** Two pushes with different payloads lead to the same list. */
  lemma NewAlertIgnoresPayload<P>(s: Screen, p: P, q: P, server: Option<string> -> Ui.Fetched<seq<Alert>>)
    ensures OnNewAlert(s, p, server) == OnNewAlert(s, q, server)
  {
  }

  /**
    A filter change. The effect's cleanup removes the old handler before the
    effect registers a new closure `next`; the list is then reloaded for the
    new filter.
  */
  function ChangeFilter(s: Screen, reg: WebSocket.Registry, f: Filter, next: WebSocket.Callback,
                        answer: Ui.Fetched<seq<Alert>>): (res: (Screen, WebSocket.Registry))
    ensures res.0.filter == f && res.0.handler == next
    ensures answer.Loaded? ==> res.0.alerts.data == answer.data
    ensures answer.FetchError? ==> res.0.alerts.data == s.alerts.data
    ensures WebSocket.ListOf(res.1, AlertEvent) ==
      WebSocket.RemoveFirst(WebSocket.ListOf(reg, AlertEvent), s.handler) + [next]
    ensures forall e :: e != AlertEvent ==> WebSocket.ListOf(res.1, e) == WebSocket.ListOf(reg, e)
  {
    var reg' := WebSocket.On(WebSocket.Off(reg, AlertEvent, s.handler), AlertEvent, next);
    (Screen(f, Ui.Settle(s.alerts, answer), next), reg')
  }

  /**
    Of the handlers the screen has ever made (`mine`), only `current` is
    registered under `alert:new`, and only once.
  */
  predicate OnlyCurrentRegistered(l: seq<WebSocket.Callback>, mine: set<WebSocket.Callback>, current: WebSocket.Callback) {
    && current in mine
    && multiset(l)[current] == 1
    && (forall h :: h in mine && h != current ==> h !in l)
  }

  /**
    Because removal comes before registration, a filter change keeps exactly one
    of the screen's handlers registered: the new one.
  */
  lemma ChangeFilterKeepsOneHandler(s: Screen, reg: WebSocket.Registry, mine: set<WebSocket.Callback>,
                                    f: Filter, next: WebSocket.Callback, answer: Ui.Fetched<seq<Alert>>)
    requires OnlyCurrentRegistered(WebSocket.ListOf(reg, AlertEvent), mine, s.handler)
    requires next !in mine && next !in WebSocket.ListOf(reg, AlertEvent)
    ensures var (s', reg') := ChangeFilter(s, reg, f, next, answer);
      OnlyCurrentRegistered(WebSocket.ListOf(reg', AlertEvent), mine + {next}, s'.handler)
  {
    var l := WebSocket.ListOf(reg, AlertEvent);
    ReplaceKeepsOne(l, mine, s.handler, next);
  }

  lemma ReplaceKeepsOne(l: seq<WebSocket.Callback>, mine: set<WebSocket.Callback>, current: WebSocket.Callback, next: WebSocket.Callback)
    requires OnlyCurrentRegistered(l, mine, current)
    requires next !in mine && next !in l
    ensures OnlyCurrentRegistered(WebSocket.RemoveFirst(l, current) + [next], mine + {next}, next)
  {
    var removed := WebSocket.RemoveFirst(l, current);
    forall h | h in mine ensures h !in removed {
      RemovedAbsent(l, current, h);
    }
    RemovedAbsent(l, current, next);
    assert multiset(removed + [next]) == multiset(removed) + multiset{next};
  }

  /** Once the only registration of `current` is removed, neither it nor anything absent before is in the list. */
  lemma RemovedAbsent(l: seq<WebSocket.Callback>, current: WebSocket.Callback, h: WebSocket.Callback)
    requires multiset(l)[current] == 1
    requires h == current || h !in l
    ensures h !in WebSocket.RemoveFirst(l, current)
  {
    WebSocket.RemoveFirstMultiset(l, current);
    assert multiset(WebSocket.RemoveFirst(l, current))[h] == 0;
  }

  /** Unmounting removes the current handler, leaving none of the screen's registered. */
  lemma UnmountLeavesNone(s: Screen, reg: WebSocket.Registry, mine: set<WebSocket.Callback>)
    requires OnlyCurrentRegistered(WebSocket.ListOf(reg, AlertEvent), mine, s.handler)
    ensures forall h :: h in mine ==> h !in WebSocket.ListOf(WebSocket.Off(reg, AlertEvent, s.handler), AlertEvent)
  {
    var l := WebSocket.ListOf(reg, AlertEvent);
    forall h | h in mine ensures h !in WebSocket.RemoveFirst(l, s.handler) {
      RemovedAbsent(l, s.handler, h);
    }
  }

  /**
    After an acknowledge or resolve request the list is reloaded; when the
    request fails nothing changes.
  */
  function AfterAction(s: Screen, succeeded: bool, answer: Ui.Fetched<seq<Alert>>): (s': Screen)
    ensures !succeeded ==> s' == s
    ensures succeeded ==> s'.filter == s.filter && !s'.alerts.loading
    ensures succeeded && answer.Loaded? ==> s'.alerts.data == answer.data
    ensures answer.FetchError? ==> s'.alerts.data == s.alerts.data
  {
    if succeeded then s.(alerts := Ui.Settle(s.alerts, answer)) else s
  }

  datatype Action = Acknowledge | Resolve

  /** The buttons of a row: both for an active alert, Resolve alone once acknowledged, none otherwise. */
  function Actions(status: string): (acts: set<Action>)
    ensures Acknowledge in acts <==> status == "active"
    ensures Resolve in acts <==> status == "active" || status == "acknowledged"
  {
    if status == "active" then {Acknowledge, Resolve}
    else if status == "acknowledged" then {Resolve}
    else {}
  }

  /** `getSeverityColor` */
  function SeverityColor(severity: string): (c: Ui.Color)
    ensures c == Ui.Error <==> severity == "critical"
    ensures c == Ui.Warning <==> severity == "high"
    ensures c == Ui.Info <==> severity == "medium"
    ensures c == Ui.Default <==> severity !in {"critical", "high", "medium"}
  {
    if severity == "critical" then Ui.Error
    else if severity == "high" then Ui.Warning
    else if severity == "medium" then Ui.Info
    else Ui.Default
  }

  /** `getStatusColor` */
  function StatusColor(status: string): (c: Ui.Color)
    ensures c == Ui.Error <==> status == "active"
    ensures c == Ui.Warning <==> status == "acknowledged"
    ensures c == Ui.Success <==> status == "resolved"
    ensures c == Ui.Default <==> status !in {"active", "acknowledged", "resolved"}
  {
    if status == "active" then Ui.Error
    else if status == "acknowledged" then Ui.Warning
    else if status == "resolved" then Ui.Success
    else Ui.Default
  }

  /** A row offers an action exactly when its chip is not green or grey. */
  lemma ActionsFollowStatusColor(status: string)
    ensures Actions(status) != {} <==> StatusColor(status) in {Ui.Error, Ui.Warning}
  {
    if status == "active" {
      assert Acknowledge in Actions(status);
    } else if status == "acknowledged" {
      assert Resolve in Actions(status);
    }
  }
}
