/**
  The sensor-data screen: a newest-first table and an oldest-first chart, both
  filled by a history request and extended by live readings; the filter form
  that builds the request; and the channel and converter lists offered as filters.
*/
module SensorScreen {
  import opened Wrappers
  import Seqs
  import WebSocket
  import Ui

  /** A reading as the history endpoint and the live push carry it. */
  datatype Reading = Reading(
    id: nat,
    nodeId: nat,
    nodeName: Option<string>,
    gatewayId: nat,
    adcType: string,
    channel: int,
    rawValue: real,
    convertedValue: Option<real>,
    timestamp: string)

  /** One point of the chart. */
  datatype ChartPoint = ChartPoint(time: string, value: real, node: Option<string>, channel: int)

  datatype Screen = Screen(
    table: seq<Reading>,
    chart: seq<ChartPoint>,
    limit: int,
    loading: bool,
    error: Option<string>)

  /** Points the chart keeps after a live reading. */
  const ChartCapacity: nat := 50

  /** The `limit` state's initial value, the one the live handler keeps using. */
  const InitialLimit: nat := 100

  /** The name the screen subscribes under. */
  const Subscription: WebSocket.EventName := "sensor_data"

  const LoadError := "Erreur lors du chargement des données"

  /** `converted_value || raw_value`: a missing or zero converted value falls back to the raw one. */
  function PointValue(d: Reading): (v: real)
    ensures d.convertedValue.Some? && d.convertedValue.value != 0.0 ==> v == d.convertedValue.value
    ensures d.convertedValue.None? || d.convertedValue.value == 0.0 ==> v == d.rawValue
  {
    match d.convertedValue
    case Some(c) => if c != 0.0 then c else d.rawValue
    case None => d.rawValue
  }

  /** The chart point for a reading; the time keeps the reading's timestamp text. */
  function ToPoint(d: Reading): (p: ChartPoint)
    ensures p.value == PointValue(d) && p.node == d.nodeName && p.channel == d.channel
  {
    ChartPoint(d.timestamp, PointValue(d), d.nodeName, d.channel)
  }

  /** The last `n` items of `s`, all of them when there are fewer: `s.slice(-n)` for `n > 0`. */
  function Last<T>(s: seq<T>, n: nat): (r: seq<T>)
    ensures |r| == if |s| < n then |s| else n
    ensures r == s[|s| - |r|..]
  {
    if |s| <= n then s else s[|s| - n..]
  }

  /** `[data, ...prev].slice(0, limit)`: the reading goes first, the oldest rows beyond `limit` drop off. */
  function TablePush(prev: seq<Reading>, d: Reading, limit: nat): (r: seq<Reading>)
    ensures |r| == if |prev| + 1 < limit then |prev| + 1 else limit
    ensures limit > 0 ==> r[0] == d
    ensures forall i :: 1 <= i < |r| ==> r[i] == prev[i - 1]
  {
    Seqs.Take([d] + prev, limit)
  }

  /** `[...prev, point].slice(-50)`: the point goes last, the oldest points beyond 50 drop off. */
  function ChartPush(prev: seq<ChartPoint>, p: ChartPoint): (r: seq<ChartPoint>)
    ensures |r| == if |prev| + 1 < ChartCapacity then |prev| + 1 else ChartCapacity
    ensures r[|r| - 1] == p
    ensures forall i :: 0 <= i < |r| - 1 ==> r[i] == prev[|prev| + 1 - |r| + i]
  {
    Last(prev + [p], ChartCapacity)
  }

  /**
    The live handler. Its effect runs once, on mount, so the `limit` it reads is
    the initial one, whatever the form holds now.
  */
  function OnLiveReading(s: Screen, d: Reading): (s': Screen)
    ensures s'.table == TablePush(s.table, d, InitialLimit)
    ensures |s'.table| <= InitialLimit
    ensures s'.chart == ChartPush(s.chart, ToPoint(d))
    ensures s'.limit == s.limit && s'.loading == s.loading && s'.error == s.error
  {
    s.(table := TablePush(s.table, d, InitialLimit), chart := ChartPush(s.chart, ToPoint(d)))
  }

  /** Readings delivered one after another, oldest first. */
  function OnLiveReadings(s: Screen, ds: seq<Reading>): (s': Screen)
    decreases |ds|
  {
    if |ds| == 0 then s else OnLiveReadings(OnLiveReading(s, ds[0]), ds[1..])
  }

  function Reverse<T>(s: seq<T>): (r: seq<T>)
    ensures |r| == |s|
    ensures forall i :: 0 <= i < |s| ==> r[i] == s[|s| - 1 - i]
  {
    if |s| == 0 then [] else Reverse(s[1..]) + [s[0]]
  }

  function Points(ds: seq<Reading>): (ps: seq<ChartPoint>)
    ensures |ps| == |ds|
    ensures forall i :: 0 <= i < |ds| ==> ps[i] == ToPoint(ds[i])
  {
    seq(|ds|, i requires 0 <= i < |ds| => ToPoint(ds[i]))
  }

  /** The table after readings pushed one by one, oldest first. */
  function TableAfter(prev: seq<Reading>, ds: seq<Reading>): seq<Reading>
    decreases |ds|
  {
    if |ds| == 0 then prev else TableAfter(TablePush(prev, ds[0], InitialLimit), ds[1..])
  }

  /** The chart after points pushed one by one. */
  function ChartAfter(prev: seq<ChartPoint>, ps: seq<ChartPoint>): seq<ChartPoint>
    decreases |ps|
  {
    if |ps| == 0 then prev else ChartAfter(ChartPush(prev, ps[0]), ps[1..])
  }

  lemma {:induction false} LiveReadingsBuffers(s: Screen, ds: seq<Reading>)
    ensures OnLiveReadings(s, ds).table == TableAfter(s.table, ds)
    ensures OnLiveReadings(s, ds).chart == ChartAfter(s.chart, Points(ds))
    decreases |ds|
  {
    if |ds| > 0 {
      LiveReadingsBuffers(OnLiveReading(s, ds[0]), ds[1..]);
      assert Points(ds)[1..] == Points(ds[1..]);
    }
  }

  lemma {:induction false} TableAfterTakesNewest(prev: seq<Reading>, ds: seq<Reading>)
    requires |ds| > 0
    ensures TableAfter(prev, ds) == Seqs.Take(Reverse(ds) + prev, InitialLimit)
    decreases |ds|
  {
    var rest := Reverse(ds[1..]);
    var t1 := Seqs.Take([ds[0]] + prev, InitialLimit);
    assert TablePush(prev, ds[0], InitialLimit) == t1;
    assert Reverse(ds) + prev == rest + ([ds[0]] + prev);
    if |ds| == 1 {
      assert rest == [];
    } else {
      TableAfterTakesNewest(t1, ds[1..]);
      TakeAppend(rest, [ds[0]] + prev, InitialLimit);
    }
  }

  lemma {:induction false} ChartAfterKeepsLast(prev: seq<ChartPoint>, ps: seq<ChartPoint>)
    requires |ps| > 0
    ensures ChartAfter(prev, ps) == Last(prev + ps, ChartCapacity)
    decreases |ps|
  {
    var c1 := Last(prev + [ps[0]], ChartCapacity);
    assert ChartPush(prev, ps[0]) == c1;
    assert prev + ps == (prev + [ps[0]]) + ps[1..];
    if |ps| > 1 {
      ChartAfterKeepsLast(c1, ps[1..]);
      LastAppend(prev + [ps[0]], ps[1..], ChartCapacity);
    }
  }

  /**
    After a run of live readings the table holds the newest `InitialLimit` rows,
    newest first with the earlier table behind them, and the chart the last
    `ChartCapacity` points in arrival order. Nothing is deduplicated.
  */
  lemma LiveBuffersKeepLatest(s: Screen, ds: seq<Reading>)
    requires |ds| > 0
    ensures OnLiveReadings(s, ds).table == Seqs.Take(Reverse(ds) + s.table, InitialLimit)
    ensures OnLiveReadings(s, ds).chart == Last(s.chart + Points(ds), ChartCapacity)
  {
    LiveReadingsBuffers(s, ds);
    TableAfterTakesNewest(s.table, ds);
    ChartAfterKeepsLast(s.chart, Points(ds));
  }

  /** Cutting the back of `b` before prepending `a` does not change the first `n` items. */
  lemma TakeAppend<T>(a: seq<T>, b: seq<T>, n: nat)
    ensures Seqs.Take(a + Seqs.Take(b, n), n) == Seqs.Take(a + b, n)
  {
    if |a| < n && n < |b| {
      assert (a + Seqs.Take(b, n))[..n] == (a + b)[..n];
    }
  }

  /** Cutting the front of `a` before appending `b` does not change the last `n` items. */
  lemma LastAppend<T>(a: seq<T>, b: seq<T>, n: nat)
    ensures Last(Last(a, n) + b, n) == Last(a + b, n)
  {
    LastThenAppend(a, b, n);
    LastOfSuffix(a + b, |a| - |Last(a, n)|, n);
  }

  lemma LastThenAppend<T>(a: seq<T>, b: seq<T>, n: nat)
    ensures Last(a, n) + b == (a + b)[|a| - |Last(a, n)|..]
  {
  }

  /** A suffix at least as long as what `Last` keeps has the same last items. */
  lemma LastOfSuffix<T>(s: seq<T>, k: nat, n: nat)
    requires k <= |s| && |s| - k >= (if |s| < n then |s| else n)
    ensures Last(s[k..], n) == Last(s, n)
  {
    var m := if |s| < n then |s| else n;
    assert s[k..][|s| - k - m..] == s[|s| - m..];
  }

  /** The same reading pushed twice takes two rows and two points. */
  lemma SameReadingTwiceKeptTwice(s: Screen, d: Reading)
    ensures var s' := OnLiveReading(OnLiveReading(s, d), d);
      s'.table[0] == d && s'.table[1] == d &&
      s'.chart[|s'.chart| - 1] == ToPoint(d) && s'.chart[|s'.chart| - 2] == ToPoint(d)
  {
  }

  /** The live table's bound ignores the form's `limit`: two screens differing only there stay alike. */
  lemma LiveHandlerIgnoresCurrentLimit(s: Screen, d: Reading, limit: int)
    ensures OnLiveReading(s.(limit := limit), d) == OnLiveReading(s, d).(limit := limit)
  {
  }

  /**
    The history answer: the rows (a missing list reads as empty) replace the
    table wholesale and the chart gets one point per row in the same order. A
    failed request sets the error message and keeps both buffers.
  */
  function OnHistory(s: Screen, answer: Ui.Fetched<Option<seq<Reading>>>): (s': Screen)
    ensures !s'.loading && s'.limit == s.limit
    ensures answer.Loaded? ==>
      && s'.table == answer.data.GetOr([])
      && |s'.chart| == |s'.table|
      && (forall i :: 0 <= i < |s'.chart| ==> s'.chart[i] == ToPoint(s'.table[i]))
      && s'.error == s.error
    ensures answer.FetchError? ==>
      s'.table == s.table && s'.chart == s.chart && s'.error == Some(LoadError)
  {
    match answer
    case Loaded(rows) =>
      var data := rows.GetOr([]);
      s.(table := data, chart := Points(data), loading := false)
    case FetchError =>
      s.(loading := false, error := Some(LoadError))
  }

  // ---- Filter form ----

  /**
    The form. An empty `<Select>` is `None`; a chosen number is `Some`.
  */
  datatype Filters = Filters(
    site: Option<int>,
    gateway: Option<int>,
    node: Option<int>,
    adcType: string,
    channel: Option<int>,
    limit: int,
    startDate: string,
    endDate: string)

  datatype Params = Params(
    limit: Option<int>,
    startDate: string,
    endDate: string,
    siteId: Option<int>,
    gatewayId: Option<int>,
    nodeId: Option<int>,
    adcType: Option<string>,
    channel: Option<int>)

  /** A JavaScript number or `''` as a condition: only a non-zero number counts. */
  function IfTruthy(x: Option<int>): (r: Option<int>)
    ensures r.Some? <==> x.Some? && x.value != 0
    ensures r.Some? ==> r == x
  {
    if x.Some? && x.value != 0 then x else None
  }

  /**
    The request built from the form: dates always, `limit` for the history
    request only (not the export), site, gateway, node and converter only when
    truthy, and the channel whenever one is chosen, 0 included.
  */
  function BuildParams(f: Filters, withLimit: bool): (p: Params)
    ensures p.limit == (if withLimit then Some(f.limit) else None)
    ensures p.startDate == f.startDate && p.endDate == f.endDate
    ensures p.siteId.Some? <==> f.site.Some? && f.site.value != 0
    ensures p.gatewayId.Some? <==> f.gateway.Some? && f.gateway.value != 0
    ensures p.nodeId.Some? <==> f.node.Some? && f.node.value != 0
    ensures p.siteId.Some? ==> p.siteId == f.site
    ensures p.gatewayId.Some? ==> p.gatewayId == f.gateway
    ensures p.nodeId.Some? ==> p.nodeId == f.node
    ensures p.adcType == (if f.adcType == "" then None else Some(f.adcType))
    ensures p.channel == f.channel
  {
    Params(
      if withLimit then Some(f.limit) else None,
      f.startDate, f.endDate,
      IfTruthy(f.site), IfTruthy(f.gateway), IfTruthy(f.node),
      if f.adcType == "" then None else Some(f.adcType),
      f.channel)
  }

  /** Channel 0 is sent, while a site id of 0 is dropped. */
  lemma ChannelZeroSentSiteZeroDropped(f: Filters)
    requires f.channel == Some(0) && f.site == Some(0)
    ensures BuildParams(f, true).channel == Some(0)
    ensures BuildParams(f, true).siteId == None
  {
  }

  // ---- Filter choices ----

  predicate StrictlyAscending(s: seq<int>) {
    forall i, j :: 0 <= i < j < |s| ==> s[i] < s[j]
  }

  /** Insert `x` into a strictly ascending list unless it is already there. */
  function InsertAscending(x: int, s: seq<int>): (r: seq<int>)
    requires StrictlyAscending(s)
    ensures StrictlyAscending(r)
    ensures forall y :: y in r <==> y == x || y in s
  {
    if |s| == 0 then [x]
    else if x < s[0] then [x] + s
    else if x == s[0] then s
    else
      var tail := InsertAscending(x, s[1..]);
      ConsAscending(s[0], tail);
      [s[0]] + tail
  }

  /** A value below everything in an ascending list may be put in front of it. */
  lemma ConsAscending(h: int, t: seq<int>)
    requires StrictlyAscending(t) && forall y :: y in t ==> h < y
    ensures StrictlyAscending([h] + t)
  {
    var r := [h] + t;
    forall i, j | 0 <= i < j < |r| ensures r[i] < r[j] {
      assert r[j] == t[j - 1] && t[j - 1] in t;
      if i > 0 { assert r[i] == t[i - 1]; }
    }
  }

  /** The set of channels, built reading by reading, as a sorted list. */
  function ChannelsOf(rows: seq<Reading>): (r: seq<int>)
    ensures StrictlyAscending(r)
    ensures forall c :: c in r <==> exists i :: 0 <= i < |rows| && rows[i].channel == c
  {
    if |rows| == 0 then []
    else
      var rest := ChannelsOf(rows[..|rows| - 1]);
      assert forall i :: 0 <= i < |rows| - 1 ==> rows[..|rows| - 1][i] == rows[i];
      InsertAscending(rows[|rows| - 1].channel, rest)
  }

  /** `getUniqueChannels`: each channel of the table once, in increasing order. */
  function UniqueChannels(s: Screen): (r: seq<int>)
    ensures Seqs.Distinct(r) && StrictlyAscending(r)
    ensures forall c :: c in r <==> exists i :: 0 <= i < |s.table| && s.table[i].channel == c
  {
    ChannelsOf(s.table)
  }

  function AdcTypes(rows: seq<Reading>): (ts: seq<string>)
    ensures |ts| == |rows|
    ensures forall i :: 0 <= i < |rows| ==> ts[i] == rows[i].adcType
  {
    seq(|rows|, i requires 0 <= i < |rows| => rows[i].adcType)
  }

  /** `getUniqueADCTypes`: each converter type of the table once, in the order first met. */
  function UniqueAdcTypes(s: Screen): (r: seq<string>)
    ensures Seqs.Distinct(r)
    ensures forall t :: t in r <==> exists i :: 0 <= i < |s.table| && s.table[i].adcType == t
  {
    var ts := AdcTypes(s.table);
    var r := Seqs.Dedup(ts);
    assert forall t :: t in r ==> t in ts;
    r
  }

  /** Converter types are listed in the order of their first row. */
  lemma UniqueAdcTypesFirstSeen(s: Screen, i: nat, j: nat)
    requires i < j < |UniqueAdcTypes(s)|
    ensures Seqs.IndexIn(AdcTypes(s.table), UniqueAdcTypes(s)[i]) < Seqs.IndexIn(AdcTypes(s.table), UniqueAdcTypes(s)[j])
  {
    Seqs.DedupKeepsFirstOccurrences(AdcTypes(s.table));
  }

  // ---- Subscription ----

  function Mount(reg: WebSocket.Registry, handler: WebSocket.Callback): (reg': WebSocket.Registry)
    ensures WebSocket.ListOf(reg', Subscription) == WebSocket.ListOf(reg, Subscription) + [handler]
  {
    WebSocket.On(reg, Subscription, handler)
  }

  /**
    The live handler is never run: the name it is registered under is not one the
    socket forwards, so mounting the screen changes what no frame delivers.
  */
  lemma LiveHandlerNeverRuns<P>(c: WebSocket.Connection, reg: WebSocket.Registry, handler: WebSocket.Callback,
                                sid: nat, name: WebSocket.EventName, d: P)
    ensures WebSocket.ReceiveFrame(c, Mount(reg, handler), sid, name, d) == WebSocket.ReceiveFrame(c, reg, sid, name, d)
  {
    WebSocket.SensorDataNotForwarded();
    if name in WebSocket.Forwarded {
      assert name != Subscription;
      assert WebSocket.ListOf(Mount(reg, handler), name) == WebSocket.ListOf(reg, name);
    }
  }
}
