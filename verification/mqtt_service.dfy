/**
  The backend's MQTT client: the topic filters it subscribes to, how a message
  is routed to one of its three handlers, and the guards on the client object.
  Topic filters follow section 4.7 of the MQTT 3.1.1 standard: `+` matches one
  level, a final `#` matches any number of levels, the parent level included.
*/
module MqttService {
  import opened Wrappers
  import opened Text
  import Json

  datatype Handler = HandleSensorData | HandleAlert | HandleStatus

  /**
    `on_message`'s routing as written: a topic containing `/data` anywhere goes
    to the sensor handler, else one containing `/alert` to the alert handler,
    else one containing `/status` to the status handler, else to none.
  */
  function Route(topic: string): (h: Option<Handler>)
    ensures h == Some(HandleSensorData) <==> Contains(topic, "/data")
    ensures h == Some(HandleAlert) <==> !Contains(topic, "/data") && Contains(topic, "/alert")
    ensures h == Some(HandleStatus) <==>
      !Contains(topic, "/data") && !Contains(topic, "/alert") && Contains(topic, "/status")
  {
    if Contains(topic, "/data") then Some(HandleSensorData)
    else if Contains(topic, "/alert") then Some(HandleAlert)
    else if Contains(topic, "/status") then Some(HandleStatus)
    else None
  }

  /** `on_message`: a payload that does not decode as JSON runs no handler, and the error is swallowed. */
  function OnMessage(topic: string, payload: Option<Json.Json>): (ran: Option<Handler>)
    ensures payload.None? ==> ran.None?
    ensures payload.Some? ==> ran == Route(topic)
  {
    if payload.None? then None else Route(topic)
  }

  /** A topic that names sensor data under an alert level still goes to the sensor handler. */
  lemma DataWinsOverAlert()
    ensures Route("x/alert/data") == Some(HandleSensorData)
  {
    ContainsAt("x/alert/data", "/data", 7);
  }

  /** Does a topic, split into levels, match a filter, split into levels? */
  function LevelsMatch(filter: seq<string>, topic: seq<string>): bool
    decreases |filter|
  {
    if |filter| == 0 then |topic| == 0
    else if filter[0] == "#" then true
    else if |topic| == 0 then false
    else (filter[0] == "+" || filter[0] == topic[0]) && LevelsMatch(filter[1..], topic[1..])
  }

  /** `apru40/+/data` */
  const DataFilter: seq<string> := ["apru40", "+", "data"]
  /** `apru40/+/alert/#` */
  const AlertFilter: seq<string> := ["apru40", "+", "alert", "#"]
  /** `apru40/+/status` */
  const StatusFilter: seq<string> := ["apru40", "+", "status"]

  /** The filter text of a filter's levels. */
  function FilterText(levels: seq<string>): string {
    Join(levels, "/")
  }

  /** Whether a topic matches the filter whose text is `filter`. */
  predicate Matches(filter: string, topic: string) {
    LevelsMatch(SplitOn(filter, '/'), SplitOn(topic, '/'))
  }

  /** The filter texts read back as the levels they were written from. */
  lemma FilterLevels()
    ensures SplitOn(FilterText(DataFilter), '/') == DataFilter
    ensures SplitOn(FilterText(AlertFilter), '/') == AlertFilter
    ensures SplitOn(FilterText(StatusFilter), '/') == StatusFilter
  {
    LevelsWithoutSlash();
    FilterTextSplits(DataFilter);
    FilterTextSplits(AlertFilter);
    FilterTextSplits(StatusFilter);
  }

  /** The three filters as the subscription strings the broker receives. */
  lemma FilterTexts()
    ensures FilterText(DataFilter) == "apru40/+/data"
    ensures FilterText(AlertFilter) == "apru40/+/alert/#"
    ensures FilterText(StatusFilter) == "apru40/+/status"
  {
    assert DataFilter[1..] == ["+", "data"] && DataFilter[1..][1..] == ["data"];
    assert AlertFilter[1..] == ["+", "alert", "#"] && AlertFilter[1..][1..] == ["alert", "#"];
    assert AlertFilter[1..][1..][1..] == ["#"];
    assert StatusFilter[1..] == ["+", "status"] && StatusFilter[1..][1..] == ["status"];
  }

  /** No level of the three filters contains the level separator. */
  lemma LevelsWithoutSlash()
    ensures forall k :: 0 <= k < |DataFilter| ==> '/' !in DataFilter[k]
    ensures forall k :: 0 <= k < |AlertFilter| ==> '/' !in AlertFilter[k]
    ensures forall k :: 0 <= k < |StatusFilter| ==> '/' !in StatusFilter[k]
  {
  }

  /** Levels without a separator come back from their filter text. */
  lemma FilterTextSplits(levels: seq<string>)
    requires |levels| >= 1
    requires forall k :: 0 <= k < |levels| ==> '/' !in levels[k]
    ensures SplitOn(FilterText(levels), '/') == levels
  {
    assert "/" == ['/'];
    SplitJoinOn(levels, '/');
  }

  /** `on_connect(rc)`: the three subscriptions when the broker accepted the connection, none otherwise. */
  function OnConnect(rc: int): (subs: seq<string>)
    ensures rc != 0 ==> subs == []
    ensures rc == 0 ==> |subs| == 3
    ensures rc == 0 ==> subs == ["apru40/+/data", "apru40/+/alert/#", "apru40/+/status"]
    ensures rc == 0 ==>
      SplitOn(subs[0], '/') == DataFilter && SplitOn(subs[1], '/') == AlertFilter
      && SplitOn(subs[2], '/') == StatusFilter
  {
    FilterLevels();
    FilterTexts();
    if rc == 0 then [FilterText(DataFilter), FilterText(AlertFilter), FilterText(StatusFilter)] else []
  }

  /** A topic whose levels match `apru40/+/<word>...` has `word` as its third level. */
  lemma ThirdLevel(f: seq<string>, t: seq<string>)
    requires |f| >= 3 && f[0] == "apru40" && f[1] == "+" && f[2] != "#" && f[2] != "+"
    requires LevelsMatch(f, t)
    ensures |t| >= 3 && t[2] == f[2]
  {
    assert LevelsMatch(f[1..], t[1..]);
    assert LevelsMatch(f[2..], t[2..]) by {
      assert f[1..][1..] == f[2..] && t[1..][1..] == t[2..];
    }
  }

  /**
    The routing the subscriptions call for: the handler named by the topic's
    third level, the one after `apru40/<gateway>`.
  */
  function RouteByLevel(topic: string): (h: Option<Handler>)
    ensures h.Some? ==> |SplitOn(topic, '/')| >= 3
    ensures h == Some(HandleSensorData) <==> |SplitOn(topic, '/')| >= 3 && SplitOn(topic, '/')[2] == "data"
    ensures h == Some(HandleAlert) <==> |SplitOn(topic, '/')| >= 3 && SplitOn(topic, '/')[2] == "alert"
    ensures h == Some(HandleStatus) <==> |SplitOn(topic, '/')| >= 3 && SplitOn(topic, '/')[2] == "status"
  {
    var levels := SplitOn(topic, '/');
    if |levels| < 3 then None
    else if levels[2] == "data" then Some(HandleSensorData)
    else if levels[2] == "alert" then Some(HandleAlert)
    else if levels[2] == "status" then Some(HandleStatus)
    else None
  }

  /** Every message a subscription delivers reaches the handler of that subscription. */
  lemma RouteByLevelFollowsSubscriptions(topic: string)
    ensures LevelsMatch(DataFilter, SplitOn(topic, '/')) ==> RouteByLevel(topic) == Some(HandleSensorData)
    ensures LevelsMatch(AlertFilter, SplitOn(topic, '/')) ==> RouteByLevel(topic) == Some(HandleAlert)
    ensures LevelsMatch(StatusFilter, SplitOn(topic, '/')) ==> RouteByLevel(topic) == Some(HandleStatus)
  {
    var t := SplitOn(topic, '/');
    if LevelsMatch(DataFilter, t) {
      ThirdLevel(DataFilter, t);
    }
    if LevelsMatch(AlertFilter, t) {
      ThirdLevel(AlertFilter, t);
    }
    if LevelsMatch(StatusFilter, t) {
      ThirdLevel(StatusFilter, t);
    }
  }

  /** The levels of the topic `apru40/data1/status`. */
  lemma DataGatewayStatusLevels()
    ensures SplitOn("apru40/data1/status", '/') == ["apru40", "data1", "status"]
  {
    var levels := ["apru40", "data1", "status"];
    assert Join(levels, "/") == "apru40/data1/status";
    SplitJoinOn(levels, '/');
  }

  lemma DataGatewayStatusSubscribed()
    ensures LevelsMatch(StatusFilter, SplitOn("apru40/data1/status", '/'))
    ensures !LevelsMatch(DataFilter, SplitOn("apru40/data1/status", '/'))
  {
    DataGatewayStatusLevels();
    StatusLevelsMatch(["apru40", "data1", "status"]);
  }

  lemma StatusLevelsMatch(levels: seq<string>)
    requires levels == ["apru40", "data1", "status"]
    ensures LevelsMatch(StatusFilter, levels) && !LevelsMatch(DataFilter, levels)
  {
  }

  lemma DataGatewayStatusContainsData()
    ensures Route("apru40/data1/status") == Some(HandleSensorData)
  {
    ContainsAt("apru40/data1/status", "/data", 6);
  }

  /**
    The substring routing sends a status message of a gateway whose name starts
    with `data` to the sensor handler, though only the status subscription
    delivered it; routing by level sends it to the status handler.
  */
  lemma StatusOfDataGatewayMisrouted()
    ensures LevelsMatch(StatusFilter, SplitOn("apru40/data1/status", '/'))
    ensures !LevelsMatch(DataFilter, SplitOn("apru40/data1/status", '/'))
    ensures Route("apru40/data1/status") == Some(HandleSensorData)
    ensures RouteByLevel("apru40/data1/status") == Some(HandleStatus)
  {
    DataGatewayStatusSubscribed();
    DataGatewayStatusContainsData();
    DataGatewayStatusLevels();
  }

  /** Whatever a subscription made on connect delivers reaches the handler of that subscription. */
  lemma SubscriptionsRouteByLevel(topic: string)
    ensures var subs := OnConnect(0);
      (Matches(subs[0], topic) ==> RouteByLevel(topic) == Some(HandleSensorData))
      && (Matches(subs[1], topic) ==> RouteByLevel(topic) == Some(HandleAlert))
      && (Matches(subs[2], topic) ==> RouteByLevel(topic) == Some(HandleStatus))
  {
    FilterLevels();
    RouteByLevelFollowsSubscriptions(topic);
  }

  /** The client object of the service: absent until `connect` first runs. */
  datatype Client = Client(loopRunning: bool, connected: bool, sent: seq<(string, string)>)

  datatype Service = Service(client: Option<Client>)

  /**
    `connect`: a fresh client is stored before the broker is contacted, so a
    refused or unreachable broker still leaves a client behind, with no loop
    running.
  */
  function Connect(s: Service, reachable: bool): (s': Service)
    ensures s'.client.Some?
    ensures s'.client.value.loopRunning <==> reachable
    ensures s'.client.value.sent == []
  {
    Service(Some(Client(reachable, reachable, [])))
  }

  /** `disconnect`: stops the loop and disconnects, but keeps the client object; without a client it does nothing. */
  function Disconnect(s: Service): (s': Service)
    ensures s.client.None? ==> s' == s
    ensures s.client.Some? ==> s'.client.Some? && !s'.client.value.loopRunning && !s'.client.value.connected
    ensures s.client.Some? ==> s'.client.value.sent == s.client.value.sent
  {
    match s.client
    case None => s
    case Some(c) => Service(Some(c.(loopRunning := false, connected := false)))
  }

  /** `publish`: hands the message to the client when there is one; without a client it does nothing. */
  function Publish(s: Service, topic: string, payload: string): (s': Service)
    ensures s.client.None? ==> s' == s
    ensures s.client.Some? ==> s'.client.Some? && s'.client.value.sent == s.client.value.sent + [(topic, payload)]
  {
    match s.client
    case None => s
    case Some(c) => Service(Some(c.(sent := c.sent + [(topic, payload)])))
  }

  /** After a disconnect, or a failed connect, `publish` still hands messages to the stale client. */
  lemma PublishAfterDisconnect(s: Service, reachable: bool, topic: string, payload: string)
    ensures var d := Disconnect(Connect(s, reachable)); |Publish(d, topic, payload).client.value.sent| == 1
    ensures var f := Connect(s, false); Publish(f, topic, payload).client.value.sent == [(topic, payload)]
  {
  }
}
