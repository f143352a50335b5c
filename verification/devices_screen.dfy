/**
  The devices screen: its list is patched in place by `device:status_change`
  pushes, and status names map to chip colours.
*/
module DevicesScreen {
  import opened Wrappers
  import WebSocket
  import Ui

  /** A device as the list endpoint returns it. */
  datatype Device = Device(
    id: nat,
    deviceId: string,
    name: string,
    kind: string,
    macAddress: Option<string>,
    gatewayId: Option<nat>,
    status: string,
    firmwareVersion: Option<string>,
    lastSeen: Option<string>,
    createdAt: string,
    updatedAt: string)

  /** The payload of a `device:status_change` push. */
  datatype StatusChange = StatusChange(deviceId: string, status: string, timestamp: string)

  const StatusEvent: WebSocket.EventName := "device:status_change"

  /**
    The patch reconciler: every device whose `deviceId` matches the payload's
    takes its status; every other field of every device is kept, and nothing is
    added, removed or reordered.
  */
  function ApplyStatusChange(devices: seq<Device>, ev: StatusChange): (r: seq<Device>)
    ensures |r| == |devices|
    ensures forall i :: 0 <= i < |r| ==> r[i].(status := devices[i].status) == devices[i]
    ensures forall i :: 0 <= i < |r| ==>
      r[i].status == (if devices[i].deviceId == ev.deviceId then ev.status else devices[i].status)
  {
    seq(|devices|, i requires 0 <= i < |devices| =>
      if devices[i].deviceId == ev.deviceId then devices[i].(status := ev.status) else devices[i])
  }

  /** The device ids, in list order. */
  function Ids(devices: seq<Device>): (ids: seq<string>)
    ensures |ids| == |devices|
    ensures forall i :: 0 <= i < |ids| ==> ids[i] == devices[i].deviceId
  {
    seq(|devices|, i requires 0 <= i < |devices| => devices[i].deviceId)
  }

  /**
    A patch never inserts: the ids are those of the old list in the same order,
    and an event for an id that is not listed changes nothing.
  */
  lemma StatusChangeNeverInserts(devices: seq<Device>, ev: StatusChange)
    ensures Ids(ApplyStatusChange(devices, ev)) == Ids(devices)
    ensures ev.deviceId !in Ids(devices) ==> ApplyStatusChange(devices, ev) == devices
  {
    var r := ApplyStatusChange(devices, ev);
    if ev.deviceId !in Ids(devices) {
      forall i | 0 <= i < |r| ensures r[i] == devices[i] {
        assert Ids(devices)[i] == devices[i].deviceId;
      }
    }
  }

  /** Applying the same push twice is the same as applying it once. */
  lemma StatusChangeIdempotent(devices: seq<Device>, ev: StatusChange)
    ensures ApplyStatusChange(ApplyStatusChange(devices, ev), ev) == ApplyStatusChange(devices, ev)
  {
    var once := ApplyStatusChange(devices, ev);
    var twice := ApplyStatusChange(once, ev);
    forall i | 0 <= i < |twice| ensures twice[i] == once[i] {
      assert once[i].deviceId == devices[i].deviceId;
    }
  }

  /** The push's timestamp is not used: `last_seen` stays as it was, and two pushes differing only in timestamp patch alike. */
  lemma StatusChangeIgnoresTimestamp(devices: seq<Device>, ev: StatusChange, t: string)
    ensures ApplyStatusChange(devices, ev.(timestamp := t)) == ApplyStatusChange(devices, ev)
    ensures forall i :: 0 <= i < |devices| ==> ApplyStatusChange(devices, ev)[i].lastSeen == devices[i].lastSeen
  {
    var r := ApplyStatusChange(devices, ev);
    forall i | 0 <= i < |devices| ensures r[i].lastSeen == devices[i].lastSeen {
      assert r[i].(status := devices[i].status) == devices[i];
    }
  }

  /** Mounting registers the screen's handler once under the status event. */
  function Mount(reg: WebSocket.Registry, handler: WebSocket.Callback): (reg': WebSocket.Registry)
    ensures WebSocket.ListOf(reg', StatusEvent) == WebSocket.ListOf(reg, StatusEvent) + [handler]
  {
    WebSocket.On(reg, StatusEvent, handler)
  }

  /** Unmounting removes the same handler reference. */
  function Unmount(reg: WebSocket.Registry, handler: WebSocket.Callback): (reg': WebSocket.Registry)
    ensures WebSocket.ListOf(reg', StatusEvent) == WebSocket.RemoveFirst(WebSocket.ListOf(reg, StatusEvent), handler)
  {
    WebSocket.Off(reg, StatusEvent, handler)
  }

  /**
    A mount followed by an unmount leaves the registry's lists as they were, for
    the status event and every other event, and while mounted a status push is
    delivered to the handler.
  */
  lemma MountThenUnmount<P>(reg: WebSocket.Registry, handler: WebSocket.Callback, d: P)
    requires handler !in WebSocket.ListOf(reg, StatusEvent)
    ensures forall e :: WebSocket.ListOf(Unmount(Mount(reg, handler), handler), e) == WebSocket.ListOf(reg, e)
    ensures WebSocket.TimesCalled(WebSocket.Notify(Mount(reg, handler), StatusEvent, d), handler) == 1
  {
    WebSocket.OnThenOff(reg, StatusEvent, handler);
    var l := WebSocket.ListOf(reg, StatusEvent);
    WebSocket.DeliverCountsRegistrations(l + [handler], d, handler);
    var before: multiset<WebSocket.Callback> := multiset(l);
    assert multiset(l + [handler]) == before + multiset{handler};
  }

  /** `getStatusColor`: online is success, offline is error, any other status the default colour. */
  function StatusColor(status: string): (c: Ui.Color)
    ensures c == Ui.Success <==> status == "online"
    ensures c == Ui.Error <==> status == "offline"
    ensures c == Ui.Default <==> status != "online" && status != "offline"
  {
    if status == "online" then Ui.Success
    else if status == "offline" then Ui.Error
    else Ui.Default
  }
}
