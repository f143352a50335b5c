/**
  The client's push-notification service: a registry from event names to ordered
  callback lists (`on`, `off`, `notifyListeners`), the nullable socket behind it
  (`connect`, `disconnect`, the room and update emits), and the fixed list of frame
  names the socket forwards into the registry.

  Callbacks are opaque ids: registering the same function twice registers the same
  id twice. A dispatch is the sequence of invocations it performs, in order.
*/
module WebSocket {
  import opened Wrappers
  import Seqs

  type Callback = nat
  type EventName = string

  datatype Registry = Registry(listeners: map<EventName, seq<Callback>>)

  datatype Invocation<P> = Invocation(callback: Callback, payload: P)

  /** The registry of a new service: no event has a list yet. */
  const EmptyRegistry := Registry(map[])

  /** The callbacks registered for `e`; an event never registered has none. */
  function ListOf(r: Registry, e: EventName): seq<Callback> {
    if e in r.listeners then r.listeners[e] else []
  }

  /**
    `on(e, cb)`: creates `e`'s list when it is new and appends `cb` at its end,
    without looking for an earlier registration; no other event changes.
  */
  function On(r: Registry, e: EventName, cb: Callback): (r': Registry)
    ensures e in r'.listeners && r'.listeners[e] == ListOf(r, e) + [cb]
    ensures r'.listeners.Keys == r.listeners.Keys + {e}
    ensures forall e' :: e' != e ==> ListOf(r', e') == ListOf(r, e')
  {
    Registry(r.listeners[e := ListOf(r, e) + [cb]])
  }

  /**
    `splice(indexOf(x), 1)`: drops the first occurrence of `x` and keeps the order
    of everything else; a list without `x` is returned unchanged.
  */
  function RemoveFirst(s: seq<Callback>, x: Callback): (t: seq<Callback>)
    ensures x !in s ==> t == s
    ensures x in s ==> t == s[..Seqs.IndexIn(s, x)] + s[Seqs.IndexIn(s, x) + 1..]
  {
    if |s| == 0 then []
    else if s[0] == x then s[1..]
    else
      var rest := RemoveFirst(s[1..], x);
      RemoveBehindHead(s, x, rest);
      [s[0]] + rest
  }

  /** Keeping a head that is not `x` in front of the removal from the tail. */
  lemma RemoveBehindHead(s: seq<Callback>, x: Callback, rest: seq<Callback>)
    requires |s| > 0 && s[0] != x
    requires x !in s[1..] ==> rest == s[1..]
    requires x in s[1..] ==> rest == s[1..][..Seqs.IndexIn(s[1..], x)] + s[1..][Seqs.IndexIn(s[1..], x) + 1..]
    ensures x !in s ==> [s[0]] + rest == s
    ensures x in s ==> [s[0]] + rest == s[..Seqs.IndexIn(s, x)] + s[Seqs.IndexIn(s, x) + 1..]
  {
    Seqs.HeadTail(s);
    if x in s {
      Seqs.IndexInTail(s, x);
      var i := Seqs.IndexIn(s[1..], x);
      assert s[..i + 1] == [s[0]] + s[1..][..i];
      assert s[i + 2..] == s[1..][i + 1..];
      Seqs.AppendAssoc([s[0]], s[1..][..i], s[1..][i + 1..]);
    }
  }

  /** Removing the first occurrence takes away exactly one copy of `x`, if there is one. */
  lemma RemoveFirstMultiset(s: seq<Callback>, x: Callback)
    ensures multiset(RemoveFirst(s, x)) == multiset(s) - multiset{x}
  {
    if x in s {
      var i := Seqs.IndexIn(s, x);
      Seqs.SplitAround(s, i);
      assert multiset(s) == multiset(s[..i]) + multiset{x} + multiset(s[i + 1..]);
    }
  }

  /**
    `off(e, cb)`: removes only the first registration of `cb` under `e`. An unknown
    event, or a callback not registered there, leaves the registry as it was, so a
    second `off` is harmless. No list is created or deleted.
  */
  function Off(r: Registry, e: EventName, cb: Callback): (r': Registry)
    ensures r'.listeners.Keys == r.listeners.Keys
    ensures ListOf(r', e) == RemoveFirst(ListOf(r, e), cb)
    ensures forall e' :: e' != e ==> ListOf(r', e') == ListOf(r, e')
    ensures cb !in ListOf(r, e) ==> r' == r
  {
    if e in r.listeners then
      var l := r.listeners[e];
      if cb in l then Registry(r.listeners[e := RemoveFirst(l, cb)])
      else r
    else r
  }

  /** Calling each callback of `l` in turn with the same payload. */
  function Deliver<P>(l: seq<Callback>, d: P): (calls: seq<Invocation<P>>)
    ensures |calls| == |l|
    ensures forall i :: 0 <= i < |l| ==> calls[i] == Invocation(l[i], d)
  {
    if |l| == 0 then [] else [Invocation(l[0], d)] + Deliver(l[1..], d)
  }

  /**
    `notifyListeners(e, d)`: every callback registered for `e`, once per
    registration, in registration order, each given `d`. An unknown event calls nothing.
  */
  function Notify<P>(r: Registry, e: EventName, d: P): (calls: seq<Invocation<P>>)
    ensures |calls| == |ListOf(r, e)|
    ensures forall i :: 0 <= i < |calls| ==> calls[i].callback == ListOf(r, e)[i] && calls[i].payload == d
    ensures e !in r.listeners ==> calls == []
  {
    Deliver(ListOf(r, e), d)
  }

  /** How many of the invocations went to `cb`. */
  function TimesCalled<P>(calls: seq<Invocation<P>>, cb: Callback): nat {
    Seqs.Count(calls, (c: Invocation<P>) => c.callback == cb)
  }

  /** A dispatch calls `cb` exactly as many times as `cb` is registered. */
  lemma {:induction false} DeliverCountsRegistrations<P>(l: seq<Callback>, d: P, cb: Callback)
    ensures TimesCalled(Deliver(l, d), cb) == multiset(l)[cb]
  {
    if |l| > 0 {
      DeliverCountsRegistrations(l[1..], d, cb);
      Seqs.MultisetCons(l);
      DeliverCons(l, d);
    }
  }

  lemma DeliverCons<P>(l: seq<Callback>, d: P)
    requires |l| > 0
    ensures Deliver(l, d) == [Invocation(l[0], d)] + Deliver(l[1..], d)
    ensures Deliver(l, d)[0] == Invocation(l[0], d) && Deliver(l, d)[1..] == Deliver(l[1..], d)
  {
  }

  /**
    `on` does not deduplicate: registering `cb` twice adds two entries, and the
    next dispatch calls it twice more than before.
  */
  lemma OnTwiceCallsTwice<P>(r: Registry, e: EventName, cb: Callback, d: P)
    ensures var r2 := On(On(r, e, cb), e, cb);
      ListOf(r2, e) == ListOf(r, e) + [cb, cb] &&
      TimesCalled(Notify(r2, e, d), cb) == TimesCalled(Notify(r, e, d), cb) + 2
  {
    var l := ListOf(r, e);
    Seqs.AppendAssoc(l, [cb], [cb]);
    assert ListOf(On(On(r, e, cb), e, cb), e) == l + [cb, cb];
    TwoMoreCalls(l, d, cb);
  }

  lemma TwoMoreCalls<P>(l: seq<Callback>, d: P, cb: Callback)
    ensures TimesCalled(Deliver(l + [cb, cb], d), cb) == TimesCalled(Deliver(l, d), cb) + 2
  {
    DeliverCountsRegistrations(l + [cb, cb], d, cb);
    DeliverCountsRegistrations(l, d, cb);
    assert multiset(l + [cb, cb]) == multiset(l) + multiset{cb, cb};
  }

  lemma {:induction false} RemoveFirstAfterAppend(l: seq<Callback>, cb: Callback)
    requires cb !in l
    ensures RemoveFirst(l + [cb], cb) == l
  {
    if |l| > 0 {
      Seqs.DropAppend(l, [cb]);
      RemoveFirstAfterAppend(l[1..], cb);
      Seqs.HeadTail(l);
    }
  }

  /**
    `on(e, cb)` followed by `off(e, cb)` gives `e` back the callbacks it had:
    exactly when `cb` was not registered before, and as a multiset otherwise
    (the earlier registration is the one removed). Other events are untouched.
  */
  lemma OnThenOff(r: Registry, e: EventName, cb: Callback)
    ensures var r' := Off(On(r, e, cb), e, cb);
      && (cb !in ListOf(r, e) ==> ListOf(r', e) == ListOf(r, e))
      && multiset(ListOf(r', e)) == multiset(ListOf(r, e))
      && (forall e' :: e' != e ==> ListOf(r', e') == ListOf(r, e'))
  {
    if cb !in ListOf(r, e) {
      RemoveFirstAfterAppend(ListOf(r, e), cb);
    }
    RemoveFirstMultiset(ListOf(r, e) + [cb], cb);
    assert multiset(ListOf(r, e) + [cb]) == multiset(ListOf(r, e)) + multiset{cb};
  }

  /** After `off`, a callback registered once under `e` is never called by a dispatch of `e`. */
  lemma OffStopsDelivery<P>(r: Registry, e: EventName, cb: Callback, d: P)
    requires multiset(ListOf(r, e))[cb] == 1
    ensures TimesCalled(Notify(Off(r, e, cb), e, d), cb) == 0
    ensures Off(Off(r, e, cb), e, cb) == Off(r, e, cb)
  {
    RemoveFirstMultiset(ListOf(r, e), cb);
    DeliverCountsRegistrations(ListOf(Off(r, e, cb), e), d, cb);
  }

  /**
    Dispatch without per-callback isolation: callbacks run in order until one
    throws; that callback has run, the exception leaves `notifyListeners`, and
    the callbacks after it never run. `raised` reports the exception.
  */
  function DeliverUntilThrow<P>(l: seq<Callback>, d: P, throws: Callback -> bool): (res: (seq<Invocation<P>>, bool))
    ensures var (calls, raised) := res;
      && |calls| <= |l|
      && calls == Deliver(l, d)[..|calls|]
      && (raised <==> exists i :: 0 <= i < |l| && throws(l[i]))
      && (raised ==> |calls| > 0 && throws(calls[|calls| - 1].callback))
      && (forall i :: 0 <= i < |calls| - 1 ==> !throws(calls[i].callback))
      && (!raised ==> calls == Deliver(l, d))
  {
    if |l| == 0 then ([], false)
    else if throws(l[0]) then ([Invocation(l[0], d)], true)
    else
      var (rest, raised) := DeliverUntilThrow(l[1..], d, throws);
      DeliverCons(l, d);
      ThrowsBehindHead(l, throws);
      Seqs.ConsPrefix(Invocation(l[0], d), Deliver(l[1..], d), |rest|);
      ([Invocation(l[0], d)] + rest, raised)
  }

  /** Behind a head that does not throw, some callback throws exactly when one in the tail does. */
  lemma ThrowsBehindHead(l: seq<Callback>, throws: Callback -> bool)
    requires |l| > 0 && !throws(l[0])
    ensures (exists i :: 0 <= i < |l| && throws(l[i])) <==> (exists i :: 0 <= i < |l[1..]| && throws(l[1..][i]))
  {
    if exists i :: 0 <= i < |l| && throws(l[i]) {
      var i :| 0 <= i < |l| && throws(l[i]);
      assert throws(l[1..][i - 1]);
    }
    if exists i :: 0 <= i < |l[1..]| && throws(l[1..][i]) {
      var i :| 0 <= i < |l[1..]| && throws(l[1..][i]);
      assert throws(l[i + 1]);
    }
  }

  /** One throwing callback stops the dispatch: no later registration is called. */
  lemma ThrowStopsLaterCallbacks<P>(r: Registry, e: EventName, d: P, throws: Callback -> bool, i: nat)
    requires i < |ListOf(r, e)| && throws(ListOf(r, e)[i])
    ensures var (calls, raised) := DeliverUntilThrow(ListOf(r, e), d, throws);
      raised && |calls| <= i + 1
  {
    var l := ListOf(r, e);
    var (calls, raised) := DeliverUntilThrow(l, d, throws);
    assert forall j :: 0 <= j < |calls| ==> calls[j].callback == l[j];
  }

  // ---- The socket ----

  /** A socket.io client; `connected` turns true once its handshake completes. */
  datatype Socket = Socket(id: nat, connected: bool)

  /**
    The service's socket slot, plus the sockets it opened and later lost track of
    (`orphans`): they were replaced by a second `connect` while still pending, were
    never disconnected, and keep forwarding frames. `made` counts the sockets ever opened.
  */
  datatype Connection = Connection(socket: Option<Socket>, orphans: set<nat>, made: nat)

  const Initial := Connection(None, {}, 0)

  /**
    `connect()`: returns at once only when the current socket is connected.
    With no socket, or a socket whose handshake is still pending, it opens a new
    socket; a pending one is replaced without being disconnected.
  */
  function Connect(c: Connection): (c': Connection)
    ensures c.socket.Some? && c.socket.value.connected ==> c' == c
    ensures !(c.socket.Some? && c.socket.value.connected) ==>
      && c'.socket == Some(Socket(c.made, false))
      && c'.made == c.made + 1
      && c'.orphans == c.orphans + (if c.socket.Some? then {c.socket.value.id} else {})
  {
    if c.socket.Some? && c.socket.value.connected then c
    else
      var lost := if c.socket.Some? then {c.socket.value.id} else {};
      Connection(Some(Socket(c.made, false)), c.orphans + lost, c.made + 1)
  }

  /** The current socket's handshake completes. */
  function Established(c: Connection): (c': Connection)
    ensures c'.socket.Some? <==> c.socket.Some?
    ensures c.socket.Some? ==> c'.socket.value == Socket(c.socket.value.id, true)
    ensures c'.orphans == c.orphans && c'.made == c.made
  {
    match c.socket
    case None => c
    case Some(s) => c.(socket := Some(s.(connected := true)))
  }

  /** `disconnect()`: drops the current socket, if any; a second call does nothing. Orphans are untouched. */
  function Disconnect(c: Connection): (c': Connection)
    ensures c'.socket.None?
    ensures c'.orphans == c.orphans && c'.made == c.made
    ensures c.socket.None? ==> c' == c
  {
    c.(socket := None)
  }

  datatype Emit = Join(room: string) | Leave(room: string) | RequestUpdate

  /**
    `socket?.emit(...)`: the message is handed to the socket exactly when there is
    one, connected or still pending; with no socket nothing is sent.
  */
  function EmitIfSocket(c: Connection, m: Emit): (sent: Option<Emit>)
    ensures sent.Some? <==> c.socket.Some?
    ensures sent.Some? ==> sent.value == m
  {
    if c.socket.Some? then Some(m) else None
  }

  function JoinRoom(c: Connection, room: string): Option<Emit> { EmitIfSocket(c, Join(room)) }
  function LeaveRoom(c: Connection, room: string): Option<Emit> { EmitIfSocket(c, Leave(room)) }
  function RequestUpdateOf(c: Connection): Option<Emit> { EmitIfSocket(c, RequestUpdate) }

  /** The frame names each socket forwards to `notifyListeners`. */
  const Forwarded: seq<EventName> := [
    "device:heartbeat",
    "device:status_change",
    "device:sensor_data",
    "alert:new",
    "device:config_applied"
  ]

  /** A socket the service made and has not disconnected: the current one or an orphan. */
  predicate Live(c: Connection, sid: nat) {
    (c.socket.Some? && c.socket.value.id == sid) || sid in c.orphans
  }

  /**
    A frame named `name` arriving on socket `sid`: dispatched to the registry when
    that socket is live and the name is one of the forwarded ones; otherwise no
    callback runs.
  */
  function ReceiveFrame<P>(c: Connection, r: Registry, sid: nat, name: EventName, d: P): (calls: seq<Invocation<P>>)
    ensures Live(c, sid) && name in Forwarded ==> calls == Notify(r, name, d)
    ensures !(Live(c, sid) && name in Forwarded) ==> calls == []
  {
    if Live(c, sid) && name in Forwarded then Notify(r, name, d) else []
  }

  /**
    Only forwarded names reach a callback: a callback runs on a frame only if it is
    registered under that frame's name and the name is forwarded.
  */
  lemma OnlyForwardedNamesDispatch<P>(c: Connection, r: Registry, sid: nat, name: EventName, d: P, cb: Callback)
    requires TimesCalled(ReceiveFrame(c, r, sid, name, d), cb) > 0
    ensures name in Forwarded && cb in ListOf(r, name)
  {
    if Live(c, sid) && name in Forwarded {
      DeliverCountsRegistrations(ListOf(r, name), d, cb);
    }
  }

  /**
    A second `connect` before the first socket's handshake leaves two live sockets,
    and `disconnect` then tears down only the newer one: a frame on the older
    socket is still dispatched.
  */
  lemma PendingConnectLeaksSocket<P>(r: Registry, name: EventName, d: P)
    requires name in Forwarded
    ensures var c := Connect(Connect(Initial));
      Live(c, 0) && Live(c, 1) &&
      ReceiveFrame(Disconnect(c), r, 0, name, d) == Notify(r, name, d)
  {
  }

  /** The sensor table's subscription name is not a forwarded name. */
  lemma SensorDataNotForwarded()
    ensures "sensor_data" !in Forwarded
  {
    assert Forwarded[0] != "sensor_data" && Forwarded[1] != "sensor_data" && Forwarded[2] != "sensor_data";
    assert Forwarded[3] != "sensor_data" && Forwarded[4] != "sensor_data";
  }
}
