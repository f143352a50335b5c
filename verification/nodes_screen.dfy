/**
  The nodes screen: the create/edit form and its submit guard, the reassign
  dialog's guard, the ADC and Bluetooth dialogs' default configurations, the
  channel toggle, and the status chip colour.
*/
module NodesScreen {
  import opened Wrappers
  import opened Seqs
  import Json
  import Http
  import Ui
  import opened IotModels
  import NodesApi

  /** The six text fields of the create/edit dialog. */
  datatype NodeForm = NodeForm(
    nodeId: string,
    name: string,
    gatewayId: string,
    nodeType: string,
    macAddress: string,
    firmwareVersion: string)

  /** The form `handleOpenDialog` sets up for a new node. */
  const NewForm := NodeForm("", "", "", "sensor", "", "")

  /** The submit button is enabled iff `node_id`, `name` and `gateway_id` are all filled in. */
  predicate SubmitEnabled(f: NodeForm) {
    f.nodeId != [] && f.name != [] && f.gatewayId != []
  }

  /** The body `handleSubmit` posts: the form data as it stands. */
  function FormBody(f: NodeForm): Json.Object {
    map[
      "node_id" := Json.JStr(f.nodeId),
      "name" := Json.JStr(f.name),
      "gateway_id" := Json.JStr(f.gatewayId),
      "node_type" := Json.JStr(f.nodeType),
      "mac_address" := Json.JStr(f.macAddress),
      "firmware_version" := Json.JStr(f.firmwareVersion)]
  }

  /**
    The server's 400 looks only at `name` and `gateway_id`, since an empty
    `node_id` string is not null; the button asks for `node_id` as well. So an
    enabled form is never refused for missing fields, and the one request the
    button holds back that the server would take is an empty `node_id`.
  */
  lemma FormGuardVersusServer(f: NodeForm)
    ensures NodesApi.CreateGuard(Some(FormBody(f))) <==> f.name != [] && f.gatewayId != []
    ensures SubmitEnabled(f) <==> NodesApi.CreateGuard(Some(FormBody(f))) && f.nodeId != []
  {
    var d := FormBody(f);
    assert Json.Get(d, "name") == Json.JStr(f.name);
    assert Json.Get(d, "gateway_id") == Json.JStr(f.gatewayId);
    assert Json.Get(d, "node_id") == Json.JStr(f.nodeId);
    assert "name" in d;
  }

  /** The node a dialog works on, when one is selected. */
  datatype Selection = NoNode | Selected(key: Key)

  /**
    What the reassign button may send: `!selectedNode || !reassignGatewayId`
    stops it, with JavaScript's truthiness of the chosen value (the empty
    string and 0 are falsy, like in Python; every object is truthy).
  */
  predicate JsTruthy(j: Json.Json) {
    match j
    case JNull => false
    case JBool(b) => b
    case JInt(i) => i != 0
    case JStr(s) => s != []
    case JArr(_) => true
    case JObj(_) => true
  }

  predicate ReassignSent(selected: Selection, choice: Json.Json) {
    selected.Selected? && JsTruthy(choice)
  }

  /** `{ gateway_id }`, the body of the reassign request. */
  function ReassignBody(choice: Json.Json): Json.Object {
    map["gateway_id" := choice]
  }

  /**
    For the values the gateway select holds (a gateway id or the empty string),
    the screen's guard and the server's 400 agree: a request the screen sends
    is never refused for a missing gateway, and the choices it holds back are
    exactly those the server would refuse.
  */
  lemma ReassignGuardMatchesServer(s: Store, key: Key, choice: Json.Json)
    requires key in s.nodes && (choice.JStr? || choice.JInt?)
    ensures var a := NodesApi.ReassignGateway(s, key, Some(ReassignBody(choice)));
      (a.reply.Failure? && a.reply.code == 400) <==> !ReassignSent(Selected(key), choice)
  {
    var d := ReassignBody(choice);
    assert "gateway_id" in d;
    assert Json.Get(d, "gateway_id") == choice;
  }

  /**
    `handleOpenReassignDialog` preselects the node's own gateway, so pressing
    the button straight away is sent and reassigns the node where it already
    is, which succeeds and changes nothing.
  */
  lemma ReassignPreselected(s: Store, key: Key)
    requires Consistent(s) && key in s.nodes && s.nodes[key].gatewayKey in s.gateways
    requires s.nodes[key].gatewayKey != []
    ensures var choice := Json.JStr(s.nodes[key].gatewayKey);
      ReassignSent(Selected(key), choice)
      && NodesApi.ReassignGateway(s, key, Some(ReassignBody(choice))) == Answer(Http.Success(200, s.nodes[key]), s)
  {
    var choice := Json.JStr(s.nodes[key].gatewayKey);
    var d := ReassignBody(choice);
    assert "gateway_id" in d && d["gateway_id"] == choice;
    NodesApi.ReassignToSameGateway(s, key, d);
  }

  /** The ADC dialog's state. */
  datatype AdcConfig = AdcConfig(
    adcType: string,
    enabledChannels: seq<int>,
    sampleRate: int,
    conversionEnabled: bool,
    sensorTypes: map<string, string>,
    calibration: map<string, Json.Json>)

  /** The Bluetooth dialog's state. */
  datatype BluetoothConfig = BluetoothConfig(enabled: bool, scannerMac: string, scanInterval: int, rssiThreshold: int)

  /** What the ADC dialog opens with when the node has no stored configuration. */
  const DefaultAdc := AdcConfig("ADS7128", [], 1000, true, map[], map[])

  /** What the Bluetooth dialog opens with when the node has no stored configuration. */
  const DefaultBluetooth := BluetoothConfig(false, "", 5, -70)

  /** `node.adc_config || {...}`: the stored configuration, or the default when there is none. */
  function OpenAdc(stored: Option<AdcConfig>): (c: AdcConfig)
    ensures stored.Some? ==> c == stored.value
    ensures stored.None? ==>
      c.adcType == "ADS7128" && c.enabledChannels == [] && c.sampleRate == 1000
      && c.conversionEnabled && c.sensorTypes == map[] && c.calibration == map[]
  {
    stored.GetOr(DefaultAdc)
  }

  /** `node.bluetooth_config || {...}` */
  function OpenBluetooth(stored: Option<BluetoothConfig>): (c: BluetoothConfig)
    ensures stored.Some? ==> c == stored.value
    ensures stored.None? ==> !c.enabled && c.scannerMac == "" && c.scanInterval == 5 && c.rssiThreshold == -70
  {
    stored.GetOr(DefaultBluetooth)
  }

  /** The ADC dialog's state as the JSON object `handleUpdateADC` sends. */
  function EncodeAdc(c: AdcConfig): Json.Object {
    map["adc_type" := Json.JStr(c.adcType),
        "enabled_channels" := Json.JArr(seq(|c.enabledChannels|, i requires 0 <= i < |c.enabledChannels| => Json.JInt(c.enabledChannels[i]))),
        "sample_rate" := Json.JInt(c.sampleRate),
        "conversion_enabled" := Json.JBool(c.conversionEnabled),
        "sensor_types" := Json.JObj(map k | k in c.sensorTypes :: Json.JStr(c.sensorTypes[k])),
        "calibration" := Json.JObj(c.calibration)]
  }

  /**
    The ADC dialog posts its configuration as the body itself, while the server
    looks for it under `adc_config`: every save is refused with 400 and the node
    keeps its old configuration.
  */
  lemma AdcSaveRefused(s: Store, key: Key, c: AdcConfig)
    requires key in s.nodes
    ensures NodesApi.UpdateAdcConfig(s, key, Some(EncodeAdc(c))) == Answer(Http.Failure(400, NodesApi.AdcRequired), s)
  {
    assert "adc_config" !in EncodeAdc(c);
  }

  /** The body the server accepts: the dialog's configuration under `adc_config`. */
  function WrappedAdcBody(c: AdcConfig): Json.Object {
    map["adc_config" := Json.JObj(EncodeAdc(c))]
  }

  /**
    With the configuration wrapped, the save goes through and the node stores
    exactly the dialog's configuration, the rest of its columns untouched.
  */
  lemma WrappedAdcSaved(s: Store, key: Key, c: AdcConfig)
    requires Consistent(s) && key in s.nodes
    ensures var a := NodesApi.UpdateAdcConfig(s, key, Some(WrappedAdcBody(c)));
      a.reply.Success? && Json.Get(a.reply.value.attrs, "adc_config") == Json.JObj(EncodeAdc(c))
      && (forall f :: f != "adc_config" ==> Json.Get(a.reply.value.attrs, f) == Json.Get(s.nodes[key].attrs, f))
  {
    assert "adc_config" in WrappedAdcBody(c) && "sensor_conversions" !in WrappedAdcBody(c);
  }

  /** The Bluetooth dialog's state as the JSON object `handleUpdateBluetooth` sends. */
  function EncodeBluetooth(b: BluetoothConfig): Json.Object {
    map["enabled" := Json.JBool(b.enabled), "scanner_mac" := Json.JStr(b.scannerMac),
        "scan_interval" := Json.JInt(b.scanInterval), "rssi_threshold" := Json.JInt(b.rssiThreshold)]
  }

  /**
    None of the keys the Bluetooth dialog sends is a column the server's
    Bluetooth endpoint writes: even at that endpoint, a save leaves the node as it was.
  */
  lemma BluetoothSaveIgnored(s: Store, key: Key, b: BluetoothConfig)
    requires Consistent(s) && key in s.nodes
    ensures var a := NodesApi.UpdateBluetooth(s, key, Some(EncodeBluetooth(b)));
      a.reply.Success? && forall f :: Json.Get(a.reply.value.attrs, f) == Json.Get(s.nodes[key].attrs, f)
  {
    var d := EncodeBluetooth(b);
    assert forall f :: f in NodesApi.BluetoothColumns ==> f !in d;
  }

  /** The dialog's state under the names of the columns the server writes. */
  function ServerBluetoothBody(b: BluetoothConfig): Json.Object {
    map["bluetooth_enabled" := Json.JBool(b.enabled), "bluetooth_mac" := Json.JStr(b.scannerMac)]
  }

  /** Sent under the server's column names, the switch and the scanner address are stored. */
  lemma ServerBluetoothSaved(s: Store, key: Key, b: BluetoothConfig)
    requires Consistent(s) && key in s.nodes
    ensures var a := NodesApi.UpdateBluetooth(s, key, Some(ServerBluetoothBody(b)));
      a.reply.Success?
      && Json.Get(a.reply.value.attrs, "bluetooth_enabled") == Json.JBool(b.enabled)
      && Json.Get(a.reply.value.attrs, "bluetooth_mac") == Json.JStr(b.scannerMac)
  {
    var d := ServerBluetoothBody(b);
    assert "bluetooth_enabled" in NodesApi.BluetoothColumns && "bluetooth_enabled" in d;
    assert "bluetooth_mac" in NodesApi.BluetoothColumns && "bluetooth_mac" in d;
  }

  /** Any channel other than `c`. */
  function NotChannel(c: int): int -> bool {
    (x: int) => x != c
  }

  /**
    `toggleChannel(c)`: a channel already enabled is removed, every copy of it;
    otherwise it is appended at the end. Only `c`'s membership changes.
  */
  function ToggleChannel(chs: seq<int>, c: int): (r: seq<int>)
    ensures c in r <==> c !in chs
    ensures forall x :: x != c ==> (x in r <==> x in chs)
    ensures c in chs ==> |r| + multiset(chs)[c] == |chs|
    ensures c !in chs ==> |r| == |chs| + 1 && r[..|chs|] == chs && r[|chs|] == c
    ensures c in chs ==>
      IsSubsequence(r, chs) && forall x :: x != c ==> multiset(r)[x] == multiset(chs)[x]
  {
    if c in chs then
      var r := Filter(chs, NotChannel(c));
      RemovedCount(chs, c);
      FilterSubsequence(chs, NotChannel(c));
      assert forall x :: x != c ==> multiset(r)[x] == multiset(chs)[x] by {
        forall x | x != c ensures multiset(r)[x] == multiset(chs)[x] {
          FilterMultiplicity(chs, NotChannel(c), x);
        }
      }
      assert forall x :: x != c && x in chs ==> x in r by {
        forall x | x != c && x in chs ensures x in r {
          var i :| 0 <= i < |chs| && chs[i] == x;
          assert NotChannel(c)(chs[i]);
        }
      }
      r
    else
      chs + [c]
  }

  /** The filter drops exactly the copies of `c`. */
  lemma {:induction false} RemovedCount(chs: seq<int>, c: int)
    ensures Count(chs, NotChannel(c)) + multiset(chs)[c] == |chs|
  {
    if |chs| > 0 {
      RemovedCount(chs[1..], c);
      assert chs == [chs[0]] + chs[1..];
      assert multiset(chs) == multiset{chs[0]} + multiset(chs[1..]);
    }
  }

  /** Toggling a channel that was off, then toggling it again, restores the list exactly. */
  lemma ToggleTwice(chs: seq<int>, c: int)
    requires c !in chs
    ensures ToggleChannel(ToggleChannel(chs, c), c) == chs
  {
    var once := chs + [c];
    assert c in once;
    FilterAppend(chs, [c], NotChannel(c));
    FilterAll(chs, NotChannel(c));
    assert Filter([c], NotChannel(c)) == [];
  }

  /** Toggling a channel that was on, twice, moves it to the end: the list is not restored. */
  lemma ToggleTwiceMoves()
    ensures ToggleChannel(ToggleChannel([3, 1], 3), 3) == [1, 3]
  {
    ToggleOff([3, 1], 3);
    DropThree();
    ToggleOn([1], 3);
  }

  lemma DropThree()
    ensures Filter([3, 1], NotChannel(3)) == [1]
  {
    assert [3, 1] == [3] + [1];
    FilterAppend([3], [1], NotChannel(3));
    assert Filter([3], NotChannel(3)) == [];
    assert Filter([1], NotChannel(3)) == [1];
  }


  lemma ToggleOff(chs: seq<int>, c: int)
    requires c in chs
    ensures ToggleChannel(chs, c) == Filter(chs, NotChannel(c))
  {
  }

  lemma ToggleOn(chs: seq<int>, c: int)
    requires c !in chs
    ensures ToggleChannel(chs, c) == chs + [c]
  {
  }



  /** The status chip: active is success, inactive is error, anything else is warning. */
  function StatusColor(status: string): (c: Ui.Color)
    ensures c == Ui.Success <==> status == "active"
    ensures c == Ui.Error <==> status == "inactive"
    ensures c == Ui.Warning <==> status != "active" && status != "inactive"
  {
    if status == "active" then Ui.Success
    else if status == "inactive" then Ui.Error
    else Ui.Warning
  }
}
