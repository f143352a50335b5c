/**
  The dashboard: a stats snapshot reloaded wholesale whenever a device changes
  status or an alert is raised. The snapshot's contents are not inspected here,
  so its type is a parameter.
*/
module DashboardScreen {
  import opened Wrappers
  import WebSocket
  import Ui

  const StatusEvent: WebSocket.EventName := "device:status_change"
  const AlertEvent: WebSocket.EventName := "alert:new"

  /** `stats` starts `null` and `loading` starts true. */
  function Initial<S>(): (s: Ui.Cached<Option<S>>)
    ensures s.data.None? && s.loading
  {
    Ui.Cached(None, true)
  }

  /**
    `fetchStats`: a successful answer replaces the snapshot, a failed one keeps
    whatever was shown before; loading ends either way.
  */
  function FetchStats<S>(s: Ui.Cached<Option<S>>, answer: Ui.Fetched<S>): (s': Ui.Cached<Option<S>>)
    ensures !s'.loading
    ensures answer.Loaded? ==> s'.data == Some(answer.data)
    ensures answer.FetchError? ==> s'.data == s.data
  {
    match answer
    case Loaded(d) => Ui.Settle(s, Ui.Loaded(Some(d)))
    case FetchError => Ui.Settle(s, Ui.FetchError)
  }

  /**
    The push handler: whatever the payload, it runs the same full refetch, so
    the payload cannot change the result and a second push with the same answer
    changes nothing more.
  */
  lemma PushIgnoresPayload<S, P>(s: Ui.Cached<Option<S>>, p: P, q: P, answer: Ui.Fetched<S>)
    ensures OnPush(s, p, answer) == OnPush(s, q, answer)
    ensures OnPush(OnPush(s, p, answer), q, answer) == OnPush(s, p, answer)
  {
  }

  function OnPush<S, P>(s: Ui.Cached<Option<S>>, payload: P, answer: Ui.Fetched<S>): (s': Ui.Cached<Option<S>>)
    ensures !s'.loading
    ensures answer.Loaded? ==> s'.data == Some(answer.data)
    ensures answer.FetchError? ==> s'.data == s.data
  {
    FetchStats(s, answer)
  }

  datatype View<S> = Spinner | NoData | Cards(stats: S)

  /** A spinner while loading, "No data available" once loaded without a snapshot, otherwise the cards. */
  function Render<S>(s: Ui.Cached<Option<S>>): (v: View<S>)
    ensures v.Spinner? <==> s.loading
    ensures v.NoData? <==> !s.loading && s.data.None?
    ensures v.Cards? <==> !s.loading && s.data.Some?
    ensures v.Cards? ==> v.stats == s.data.value
  {
    if s.loading then Spinner
    else if s.data.None? then NoData
    else Cards(s.data.value)
  }

  /** A failed first request leaves the screen on "No data available". */
  lemma FirstFailureShowsNoData<S>()
    ensures Render(FetchStats(Initial<S>(), Ui.FetchError)) == NoData
  {
  }

  /** On mount, the one handler is registered under both events. */
  function Mount(reg: WebSocket.Registry, h: WebSocket.Callback): (reg': WebSocket.Registry)
    ensures WebSocket.ListOf(reg', StatusEvent) == WebSocket.ListOf(reg, StatusEvent) + [h]
    ensures WebSocket.ListOf(reg', AlertEvent) == WebSocket.ListOf(reg, AlertEvent) + [h]
    ensures forall e :: e != StatusEvent && e != AlertEvent ==> WebSocket.ListOf(reg', e) == WebSocket.ListOf(reg, e)
  {
    WebSocket.On(WebSocket.On(reg, StatusEvent, h), AlertEvent, h)
  }

  /** On unmount, the same reference is removed from both events. */
  function Unmount(reg: WebSocket.Registry, h: WebSocket.Callback): (reg': WebSocket.Registry)
    ensures WebSocket.ListOf(reg', StatusEvent) == WebSocket.RemoveFirst(WebSocket.ListOf(reg, StatusEvent), h)
    ensures WebSocket.ListOf(reg', AlertEvent) == WebSocket.RemoveFirst(WebSocket.ListOf(reg, AlertEvent), h)
    ensures forall e :: e != StatusEvent && e != AlertEvent ==> WebSocket.ListOf(reg', e) == WebSocket.ListOf(reg, e)
  {
    WebSocket.Off(WebSocket.Off(reg, StatusEvent, h), AlertEvent, h)
  }

  /**
    Mounting and then unmounting a fresh handler gives every event the list it
    had before; while mounted, a push on either event runs the handler once.
  */
  lemma MountThenUnmount<P>(reg: WebSocket.Registry, h: WebSocket.Callback, d: P)
    requires h !in WebSocket.ListOf(reg, StatusEvent) && h !in WebSocket.ListOf(reg, AlertEvent)
    ensures forall e :: WebSocket.ListOf(Unmount(Mount(reg, h), h), e) == WebSocket.ListOf(reg, e)
    ensures WebSocket.TimesCalled(WebSocket.Notify(Mount(reg, h), StatusEvent, d), h) == 1
    ensures WebSocket.TimesCalled(WebSocket.Notify(Mount(reg, h), AlertEvent, d), h) == 1
  {
    MountThenUnmountRestores(reg, h);
    OnceAfterAppend(WebSocket.ListOf(reg, StatusEvent), h, d);
    OnceAfterAppend(WebSocket.ListOf(reg, AlertEvent), h, d);
  }

  lemma MountThenUnmountRestores(reg: WebSocket.Registry, h: WebSocket.Callback)
    requires h !in WebSocket.ListOf(reg, StatusEvent) && h !in WebSocket.ListOf(reg, AlertEvent)
    ensures forall e :: WebSocket.ListOf(Unmount(Mount(reg, h), h), e) == WebSocket.ListOf(reg, e)
  {
    var m := Mount(reg, h);
    var u := Unmount(m, h);
    forall e ensures WebSocket.ListOf(u, e) == WebSocket.ListOf(reg, e) {
      if e == StatusEvent || e == AlertEvent {
        WebSocket.RemoveFirstAfterAppend(WebSocket.ListOf(reg, e), h);
      }
    }
  }

  /** A callback appended to a list that lacked it is called once by a dispatch. */
  lemma OnceAfterAppend<P>(l: seq<WebSocket.Callback>, h: WebSocket.Callback, d: P)
    requires h !in l
    ensures WebSocket.TimesCalled(WebSocket.Deliver(l + [h], d), h) == 1
  {
    WebSocket.DeliverCountsRegistrations(l + [h], d, h);
    var before: multiset<WebSocket.Callback> := multiset(l);
    assert multiset(l + [h]) == before + multiset{h};
  }
}
