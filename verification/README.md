# APRU40 MQTT IoT platform — a Dafny model of its core

The platform is a Flask backend and a React frontend for a network of sensor
gateways and nodes that talk over MQTT. This project models the parts of it
that hold sequential logic, as pure functions over `seq` and `map` with
contracts and lemmas:

- **The real-time sync layer of the frontend.** This is the WebSocket service's
  event-name → callback-list registry (`on`, `off`, dispatch), its nullable
  socket and its fixed forwarding list. It also covers the screens that react to
  pushed events: the device list patch, the sensor table and chart buffers, and
  the dashboard and alert refetches.
- **The Mosquitto ACL text processing of the MQTT administration endpoints.**
  This is the `user` / `topic` line parser, the block delete, the block-body
  replace, the append, and the request guards around them.
- **Pure UI list operations and guards.** These are the permission-list editor,
  the node form and reassign guards, `toggleChannel`, the dialog defaults, and
  the status → colour and status → action maps.
- **The backend entity stores.**
  - The IoT tables (sites, gateways, nodes, readings) are maps from UUID key to
    row. The legacy tables (devices, sensors, alerts, users) are sequences in
    primary-key order.
  - Their endpoints have required-field checks, 400/404/409 outcomes, unique
    constraints checked at commit (a violation is a 500 with rollback),
    whitelisted partial updates, alert transitions, counting statistics and
    cascades.
  - Also covered: the `Authorization` header check, the demo login, and the
    MQTT service's topic routing and client guards.

The default database is SQLite (`backend/app/__init__.py:25`). It enforces
UNIQUE and NOT NULL at commit but not foreign keys, so the model checks unique
constraints at commit and stores dangling references as they are.

The blueprints for nodes, IoT gateways, sites and sensor data are not
registered in `backend/app/__init__.py:34-40`. Their endpoints are modelled as
written, as if registered.

Shared modules:

- `Wrappers`: `Option`.
- `Text`: Python's `strip`, `split`, `join`, `startswith`, `in` and `lower`,
  over ASCII.
- `Json`: request values, Python truthiness, `dict.get` and `str.format` of
  scalars.
- `Http`: status-code outcomes.
- `Seqs`: counting, filtering, stable sort, `LIMIT` and deduplication.

## Model

| member | source | states |
|---|---|---|
| WebSocket.On | frontend/src/services/websocket.ts:61-66 | The callback goes last in the event's list, which is created empty first when the event is new; every other event's list is unchanged. |
| WebSocket.RemoveFirst | frontend/src/services/websocket.ts:71-74 | `indexOf` + `splice(index, 1)`: only the first occurrence goes, the rest keep their order; an absent callback leaves the list as it is. |
| WebSocket.RemoveFirstMultiset | frontend/src/services/websocket.ts:68-76 | Removing a callback takes exactly one copy of it out of the list's multiset. |
| WebSocket.Off | frontend/src/services/websocket.ts:68-76 | Only the named event's list changes, by removing the first occurrence; an unknown event or an unregistered callback changes nothing. |
| WebSocket.Deliver | frontend/src/services/websocket.ts:81 | The dispatch calls each registered entry once, in registration order, with the same payload. |
| WebSocket.Notify | frontend/src/services/websocket.ts:78-83 | One invocation per entry of the event's list, in order, with payload `d`; an unknown event calls nothing. |
| WebSocket.DeliverCountsRegistrations | frontend/src/services/websocket.ts:65-81 | A callback is called as many times as it is registered: `on` does not deduplicate. |
| WebSocket.OnTwiceCallsTwice | frontend/src/services/websocket.ts:61-83 | Registering the same callback twice makes one dispatch call it twice more than before. |
| WebSocket.RemoveFirstAfterAppend | frontend/src/services/websocket.ts:65-74 | Removing a callback just appended to a list that did not hold it gives back the list. |
| WebSocket.OnThenOff | frontend/src/services/websocket.ts:61-76 | `on` then `off` restores the event's list exactly when the callback was not registered before, and as a multiset otherwise. |
| WebSocket.OffStopsDelivery | frontend/src/services/websocket.ts:68-83 | After removing a callback registered once, a dispatch no longer calls it, and a second `off` changes nothing. |
| WebSocket.DeliverUntilThrow | frontend/src/services/websocket.ts:81 | With no per-callback error isolation, the dispatch calls entries up to and including the first that throws, and reports whether one threw. |
| WebSocket.ThrowStopsLaterCallbacks | frontend/src/services/websocket.ts:81 | If entry `i` throws, no entry after it is called and the exception escapes. |
| WebSocket.Connect | frontend/src/services/websocket.ts:12-19 | No-op only when a socket exists and is connected; otherwise a new socket is made and the old one, if any, is orphaned. |
| WebSocket.Established | frontend/src/services/websocket.ts:21-23 | The handshake marks the current socket connected and nothing else. |
| WebSocket.Disconnect | frontend/src/services/websocket.ts:37-42 | The socket becomes null, and the call is a no-op when it already is. |
| WebSocket.EmitIfSocket | frontend/src/services/websocket.ts:85-95 | `joinRoom`, `leaveRoom` and `requestUpdate` emit their message exactly when a socket is present. |
| WebSocket.ReceiveFrame | frontend/src/services/websocket.ts:44-59 | A frame on the live socket reaches `notifyListeners` only when its name is one of the five forwarded names; any other frame dispatches nothing. |
| WebSocket.OnlyForwardedNamesDispatch | frontend/src/services/websocket.ts:44-59 | A callback that a frame reaches is registered under one of the five forwarded names. |
| WebSocket.PendingConnectLeaksSocket | frontend/src/services/websocket.ts:12-42 | Two `connect` calls before the first handshake leave two live sockets; `disconnect` drops only the newer one, and a forwarded frame on the older socket is still dispatched to the listeners. |
| WebSocket.SensorDataNotForwarded | frontend/src/services/websocket.ts:45-51 | `'sensor_data'` is not one of the forwarded names. |
| Ui.Settle | frontend/src/components/Dashboard/Dashboard.tsx:27-36 | A fetch's end clears `loading`; a success replaces the data and a failure keeps the old data. |
| Ui.SettleIdempotent | frontend/src/components/Dashboard/Dashboard.tsx:27-36 | Settling twice with the same answer is settling once. |
| DevicesScreen.ApplyStatusChange | frontend/src/components/Devices/Devices.tsx:48-54 | The list keeps its length and order; every device whose `device_id` matches gets the payload's status and keeps every other field; the others are untouched. |
| DevicesScreen.StatusChangeNeverInserts | frontend/src/components/Devices/Devices.tsx:49-54 | The ids are unchanged, and with no matching device the list is unchanged. |
| DevicesScreen.StatusChangeIdempotent | frontend/src/components/Devices/Devices.tsx:48-54 | Applying the same event twice equals applying it once. |
| DevicesScreen.StatusChangeIgnoresTimestamp | frontend/src/components/Devices/Devices.tsx:51 | The payload's timestamp makes no difference, and `last_seen` is never patched. |
| DevicesScreen.Mount | frontend/src/components/Devices/Devices.tsx:57 | Mounting adds the handler once at the end of `device:status_change`. |
| DevicesScreen.Unmount | frontend/src/components/Devices/Devices.tsx:59-61 | Unmounting removes the first occurrence of the same handler. |
| DevicesScreen.MountThenUnmount | frontend/src/components/Devices/Devices.tsx:57-61 | A mount and unmount pair restores every event's list, and while mounted one status event calls the handler once. |
| DevicesScreen.StatusColor | frontend/src/components/Devices/Devices.tsx:64-73 | online → success, offline → error, anything else → default, as three if-and-only-ifs. |
| SensorScreen.PointValue | frontend/src/components/SensorData/SensorData.tsx:131-157 | `converted_value \|\| raw_value`: a missing or zero converted value falls back to the raw value. |
| SensorScreen.ToPoint | frontend/src/components/SensorData/SensorData.tsx:155-160 | A chart point carries the reading's point value, node and channel. |
| SensorScreen.Last | frontend/src/components/SensorData/SensorData.tsx:161 | `slice(-n)`: the last `min(len, n)` items, as a suffix. |
| SensorScreen.TablePush | frontend/src/components/SensorData/SensorData.tsx:152 | Length `min(len+1, limit)`; the reading is first and the previous rows follow in order. |
| SensorScreen.ChartPush | frontend/src/components/SensorData/SensorData.tsx:154-162 | Length `min(len+1, 50)`; the point is last and the oldest points are evicted first. |
| SensorScreen.OnLiveReading | frontend/src/components/SensorData/SensorData.tsx:150-163 | A live reading pushes onto both buffers; the table uses the limit captured at mount and never exceeds it; other state is unchanged. |
| SensorScreen.LiveReadingsBuffers | frontend/src/components/SensorData/SensorData.tsx:150-163 | A run of live readings folds into the buffers reading by reading. |
| SensorScreen.TableAfterTakesNewest | frontend/src/components/SensorData/SensorData.tsx:152 | After a run of readings the table is the newest readings (newest first) followed by the old rows, cut to the limit. |
| SensorScreen.ChartAfterKeepsLast | frontend/src/components/SensorData/SensorData.tsx:161 | After a run of points the chart is the last 50 of the old chart followed by the new points. |
| SensorScreen.LiveBuffersKeepLatest | frontend/src/components/SensorData/SensorData.tsx:150-163 | Both buffers after a run equal one cut of the whole history: a prefix of newest-first for the table, a suffix for the chart. |
| SensorScreen.TakeAppend | frontend/src/components/SensorData/SensorData.tsx:152 | Cutting the previous table before prepending does not change the first `n` rows. |
| SensorScreen.LastAppend | frontend/src/components/SensorData/SensorData.tsx:161 | Cutting the previous chart before appending does not change the last `n` points. |
| SensorScreen.SameReadingTwiceKeptTwice | frontend/src/components/SensorData/SensorData.tsx:152-161 | There is no deduplication: the same reading delivered twice takes two rows and two points. |
| SensorScreen.LiveHandlerIgnoresCurrentLimit | frontend/src/components/SensorData/SensorData.tsx:150-170 | The live handler's effect does not depend on the form's current `limit`. |
| SensorScreen.OnHistory | frontend/src/components/SensorData/SensorData.tsx:109-143 | A fetch replaces the table wholesale (a missing list reads as empty) and the chart gets one point per row in the same order; a failure keeps both and shows the error. |
| SensorScreen.Reverse | frontend/src/components/SensorData/SensorData.tsx:152 | The order in which successive prepends leave a run of readings. |
| SensorScreen.Points | frontend/src/components/SensorData/SensorData.tsx:129-134 | One chart point per row, in the same order. |
| SensorScreen.IfTruthy | frontend/src/components/SensorData/SensorData.tsx:118-120 | A site, gateway or node id is sent only when it is a non-zero number. |
| SensorScreen.BuildParams | frontend/src/components/SensorData/SensorData.tsx:112-122 | Each filter parameter is present exactly under its own truthiness rule; `channel` is present whenever it is not `''`. |
| SensorScreen.ChannelZeroSentSiteZeroDropped | frontend/src/components/SensorData/SensorData.tsx:118-122 | Channel 0 is sent, while site 0 is dropped. |
| SensorScreen.InsertAscending | frontend/src/components/SensorData/SensorData.tsx:205-207 | Adding to the set keeps the list strictly ascending, with exactly the old members plus `x`. |
| SensorScreen.ChannelsOf | frontend/src/components/SensorData/SensorData.tsx:204-208 | The strictly ascending list of exactly the channels of the rows. |
| SensorScreen.UniqueChannels | frontend/src/components/SensorData/SensorData.tsx:204-208 | `getUniqueChannels` gives each channel of the table once, in increasing order, and no other value. |
| SensorScreen.AdcTypes | frontend/src/components/SensorData/SensorData.tsx:212 | The converter type of each row, in order. |
| SensorScreen.UniqueAdcTypes | frontend/src/components/SensorData/SensorData.tsx:210-214 | `getUniqueADCTypes` gives each converter type of the table once, and no other value. |
| SensorScreen.UniqueAdcTypesFirstSeen | frontend/src/components/SensorData/SensorData.tsx:210-214 | The types are listed in the order of their first row. |
| SensorScreen.Mount | frontend/src/components/SensorData/SensorData.tsx:165 | The live handler is registered under `'sensor_data'`. |
| SensorScreen.LiveHandlerNeverRuns | frontend/src/components/SensorData/SensorData.tsx:165 | Because that name is not forwarded, registering the handler changes no dispatch of any incoming frame. |
| DashboardScreen.Initial | frontend/src/components/Dashboard/Dashboard.tsx:23-24 | The screen starts loading, with no stats. |
| DashboardScreen.FetchStats | frontend/src/components/Dashboard/Dashboard.tsx:27-36 | Success replaces the stats wholesale; failure keeps them; `loading` is cleared either way. |
| DashboardScreen.OnPush | frontend/src/components/Dashboard/Dashboard.tsx:43-45 | A pushed event triggers the same full refetch. |
| DashboardScreen.PushIgnoresPayload | frontend/src/components/Dashboard/Dashboard.tsx:43-45 | Two pushes with different payloads have the same effect, and a second push with the same answer changes nothing. |
| DashboardScreen.Render | frontend/src/components/Dashboard/Dashboard.tsx:57-67 | Spinner iff loading; "No data" iff not loading with no stats; cards showing the stats otherwise. |
| DashboardScreen.FirstFailureShowsNoData | frontend/src/components/Dashboard/Dashboard.tsx:27-66 | A failed first fetch shows "No data". |
| DashboardScreen.Mount | frontend/src/components/Dashboard/Dashboard.tsx:47-48 | One handler goes last on both `device:status_change` and `alert:new`; other events are unchanged. |
| DashboardScreen.Unmount | frontend/src/components/Dashboard/Dashboard.tsx:50-54 | The same handler is removed from both events. |
| DashboardScreen.MountThenUnmount | frontend/src/components/Dashboard/Dashboard.tsx:47-54 | Unmount returns both lists to their pre-mount state, and while mounted each event calls the handler once. |
| DashboardScreen.MountThenUnmountRestores | frontend/src/components/Dashboard/Dashboard.tsx:47-54 | Mount then unmount restores every event's list. |
| DashboardScreen.OnceAfterAppend | frontend/src/components/Dashboard/Dashboard.tsx:47-48 | A handler appended once to a list without it is called once per dispatch. |
| AlertsScreen.StatusParam | frontend/src/components/Alerts/Alerts.tsx:34 | Filter `all` sends no status parameter; any other filter sends its own name. |
| AlertsScreen.OnNewAlert | frontend/src/components/Alerts/Alerts.tsx:49-51 | The handler refetches with the current filter; success replaces the list and failure keeps it. |
| AlertsScreen.NewAlertIgnoresPayload | frontend/src/components/Alerts/Alerts.tsx:49-51 | The payload makes no difference. |
| AlertsScreen.ChangeFilter | frontend/src/components/Alerts/Alerts.tsx:48-58 | On a filter change the old handler's first occurrence is removed before the new one is appended; other events are untouched; the list is refetched. |
| AlertsScreen.ChangeFilterKeepsOneHandler | frontend/src/components/Alerts/Alerts.tsx:48-58 | If at most the current handler of this screen was registered, the same holds for the new handler after the change. |
| AlertsScreen.UnmountLeavesNone | frontend/src/components/Alerts/Alerts.tsx:55-57 | Unmounting leaves no handler of this screen registered. |
| AlertsScreen.AfterAction | frontend/src/components/Alerts/Alerts.tsx:60-76 | A failed acknowledge or resolve changes nothing; a successful one refetches with the filter kept. |
| AlertsScreen.Actions | frontend/src/components/Alerts/Alerts.tsx:168-197 | Acknowledge is offered iff the status is active; Resolve iff it is active or acknowledged. |
| AlertsScreen.SeverityColor | frontend/src/components/Alerts/Alerts.tsx:78-91 | critical → error, high → warning, medium → info, else default, each as an if-and-only-if. |
| AlertsScreen.StatusColor | frontend/src/components/Alerts/Alerts.tsx:93-104 | active → error, acknowledged → warning, resolved → success, else default. |
| AlertsScreen.ActionsFollowStatusColor | frontend/src/components/Alerts/Alerts.tsx:93-197 | An alert offers some action exactly when its status colour is error or warning. |
| Acl.Lines | backend/app/api/mqtt_admin.py:65 | `split('\n')`: at least one line, none containing a newline. |
| Acl.Classify | backend/app/api/mqtt_admin.py:66-83 | A line is a header iff its strip starts `user `, and then it names its second word, which is non-empty and has no space; it is a topic line iff its strip starts `topic ` and has three or more words, and then it grants the second word's access on the remaining words joined by single spaces; every other line is ignored. |
| Acl.Grant | backend/app/api/mqtt_admin.py:80-83 | A permission extends the user being read and is dropped when no user has been opened. |
| Acl.Step | backend/app/api/mqtt_admin.py:67-83 | A header closes the current user and opens an empty one; a topic line closes nothing; any other line changes nothing. |
| Acl.ParseUsers | backend/app/api/mqtt_admin.py:62-90 | The `get_users` loop computes the recursive parse `Users`, by its loop invariant. |
| Acl.UsersNamedByHeaders | backend/app/api/mqtt_admin.py:65-90 | One user per header line, named by its second word, in file order; duplicate headers give duplicate users. |
| Acl.PreambleIgnored | backend/app/api/mqtt_admin.py:62-83 | Topic lines before the first header grant nothing to anyone. |
| Acl.BodyGrantsCurrentUser | backend/app/api/mqtt_admin.py:77-83 | The topic lines of a block go to the block's user, in order. |
| Acl.ParseAppend | backend/app/api/mqtt_admin.py:67-76 | A header starts a fresh parse: what follows it never grants to an earlier user. |
| Acl.BlockOwnsItsTopics | backend/app/api/mqtt_admin.py:62-90 | A block's topics belong to its header's user alone: the users before it, that user, and the users after it parse independently. |
| Acl.HeaderTextClassified | backend/app/api/mqtt_admin.py:75-133 | The header line the endpoints write, `user <name>`, parses back as a header for that name. |
| Acl.PermTextClassified | backend/app/api/mqtt_admin.py:78-135 | The topic line written for a single-word permission parses back as that permission. |
| Acl.AppendUser | backend/app/api/mqtt_admin.py:133-135 | The old ACL is a prefix of the new one, followed by `\nuser <name>\n` and one topic line per permission. |
| Acl.AppendUserParses | backend/app/api/mqtt_admin.py:122-135 | Appending parses as the old users followed by the new user with exactly the given permissions; there is no existing-user check. |
| Acl.DeleteLines | backend/app/api/mqtt_admin.py:170-185 | The `delete_user` loop keeps a subset of the input lines and never invents one. |
| Acl.DeleteLinesSubsequence | backend/app/api/mqtt_admin.py:174-182 | The output is the input lines, in order, minus some of them. |
| Acl.DeleteTextNoMatch | backend/app/api/mqtt_admin.py:170-185 | With no line stripping to `user <name>`, the rewritten ACL equals the input. |
| Acl.DeleteTextParses | backend/app/api/mqtt_admin.py:170-185 | After the delete, the ACL parses as the old users minus every user of that name, each other user keeping its permissions. |
| Acl.Replace | backend/app/api/mqtt_admin.py:225-238 | The users' list after an update: same names and length, the named users get the new permissions, the others are unchanged. |
| Acl.UpdateTextParses | backend/app/api/mqtt_admin.py:225-238 | After the rewrite, the ACL parses as the old users with the named user's permissions replaced by the new list. |
| Acl.DecodePerms | backend/app/api/mqtt_admin.py:226-230 | A posted list decodes entry by entry; an empty string or object iterates as no permissions; anything else fails. |
| Acl.GetUsers | backend/app/api/mqtt_admin.py:46-94 | A missing file lists no users; an unreadable one answers 500; otherwise 200 with one user per header, named in file order. |
| Acl.CreateUser | backend/app/api/mqtt_admin.py:96-148 | 400 iff the body is empty or the username or password is falsy; a non-string username or password is a 500; a failure of the password tool is a 500 carrying its error text, and nothing is written; with the tool succeeding, falsy permissions give 201 with the ACL untouched, and truthy ones are a 500 exactly when a permission is malformed, else the ACL is rewritten by appending the user. |
| Acl.DeleteUser | backend/app/api/mqtt_admin.py:150-196 | Succeeds iff the `mosquitto_passwd -D` call completes; the ACL is rewritten iff it exists, by the block delete; when the call raises, the 500 carries the exception's own text after `Error deleting user: `. |
| Acl.UpdatePermissions | backend/app/api/mqtt_admin.py:198-255 | 400 iff the body lacks `permissions`; 500 when the ACL cannot be read; 404 iff no line strips to `user <name>`; with the header present, 200 with the block-body rewrite iff the permissions decode, else 500. |
| Acl.CreatedUserListed | backend/app/api/mqtt_admin.py:96-148 | Listing after a successful create shows the old users followed by the new one with its permissions. |
| Acl.CreateOverUnreadableAcl | backend/app/api/mqtt_admin.py:130 | An unreadable ACL counts as empty, so the append leaves the new user as the only one. |
| Acl.AppendToNoUsers | backend/app/api/mqtt_admin.py:122-135 | Appending to an ACL without users gives just the new user. |
| Acl.EmptyFileNoUsers | backend/app/api/mqtt_admin.py:62-90 | An empty file has no users. |
| Acl.DeletedUserGone | backend/app/api/mqtt_admin.py:150-196 | Listing after a delete shows the old users minus the deleted name, and no user of that name. |
| Acl.UpdatedUserListed | backend/app/api/mqtt_admin.py:198-255 | Listing after an update shows the old users with that user's permissions replaced. |
| Acl.EmptyTopicDropped | backend/app/api/mqtt_admin.py:79-135 | A permission with an empty topic is written as a two-word line, which the parser ignores. |
| Acl.TopicTooShort | backend/app/api/mqtt_admin.py:77-79 | A topic line with fewer than three words grants nothing. |
| MqttConfigScreen.AddPermission | frontend/src/components/MQTTConfig/MQTTConfig.tsx:196-198 | One entry `{readwrite, ''}` goes last; earlier entries are unchanged. |
| MqttConfigScreen.UpdatePermission | frontend/src/components/MQTTConfig/MQTTConfig.tsx:200-204 | Only field `f` of entry `i` changes; the length and every other entry stay. |
| MqttConfigScreen.RemovePermission | frontend/src/components/MQTTConfig/MQTTConfig.tsx:206-208 | Exactly entry `i` goes and the rest keep their order; an index out of range changes nothing. |
| MqttConfigScreen.FilterIndex | frontend/src/components/MQTTConfig/MQTTConfig.tsx:207 | The index filter over a suffix of the list. |
| MqttConfigScreen.RemoveAfterAdd | frontend/src/components/MQTTConfig/MQTTConfig.tsx:196-208 | Removing the entry just added gives back the list. |
| MqttConfigScreen.UpdateTwice | frontend/src/components/MQTTConfig/MQTTConfig.tsx:200-204 | Writing a field twice keeps only the second value. |
| MqttConfigScreen.UpdateSameValue | frontend/src/components/MQTTConfig/MQTTConfig.tsx:200-204 | Writing back the value a field holds changes nothing. |
| MqttConfigScreen.Encode | frontend/src/components/MQTTConfig/MQTTConfig.tsx:119-125 | The posted permissions are a JSON list of the same length. |
| MqttConfigScreen.EncodeDecodes | frontend/src/components/MQTTConfig/MQTTConfig.tsx:119-125 | The server decodes the posted list back to exactly the dialog's permissions. |
| MqttConfigScreen.EncodeOneDecodes | frontend/src/components/MQTTConfig/MQTTConfig.tsx:119-125 | One posted entry decodes back to the entry. |
| MqttConfigScreen.GuardMatchesServer | frontend/src/components/MQTTConfig/MQTTConfig.tsx:110-114 | The dialog holds a request back exactly when the server would answer it with 400. |
| MqttConfigScreen.UntouchedEntryLost | frontend/src/components/MQTTConfig/MQTTConfig.tsx:196-198 | The freshly added entry, posted untouched, is read back as no permission. |
| MqttConfigScreen.PermissionCell | frontend/src/components/MQTTConfig/MQTTConfig.tsx:305-327 | "No permissions" iff the list is empty; otherwise the first `min(2, n)` chips, plus `+(n-2) more` iff `n > 2`. |
| MqttConfigScreen.CellCountsAll | frontend/src/components/MQTTConfig/MQTTConfig.tsx:305-327 | The chips shown plus the `more` count add up to the list's length. |
| NodesScreen.FormGuardVersusServer | frontend/src/components/Nodes/Nodes.tsx:523 | The server's 400 check passes iff the name and gateway are non-empty, and submit is enabled iff it passes and `node_id` is non-empty too. |
| NodesScreen.ReassignGuardMatchesServer | frontend/src/components/Nodes/Nodes.tsx:256-258 | For a chosen gateway the screen sends the reassign iff the server would not refuse it with 400. |
| NodesScreen.ReassignPreselected | frontend/src/components/Nodes/Nodes.tsx:197-201 | Saving the dialog as it opens, on the node's own gateway, succeeds and changes nothing. |
| NodesScreen.OpenAdc | frontend/src/components/Nodes/Nodes.tsx:173-184 | A stored ADC config opens as it is; a missing one opens as `{ADS7128, [], 1000, true, {}, {}}`. |
| NodesScreen.OpenBluetooth | frontend/src/components/Nodes/Nodes.tsx:186-195 | A stored Bluetooth config opens as it is; a missing one opens as `{false, '', 5, -70}`. |
| NodesScreen.AdcSaveRefused | frontend/src/components/Nodes/Nodes.tsx:230-241 | The ADC dialog's save is always answered 400 and the node keeps its old configuration. |
| NodesScreen.WrappedAdcSaved | backend/app/api/nodes.py:152-155 | Under `adc_config` the save goes through, and the node stores the dialog's configuration with its other columns unchanged. |
| NodesScreen.BluetoothSaveIgnored | frontend/src/components/Nodes/Nodes.tsx:113-118 | None of the dialog's keys is a column the Bluetooth endpoint writes, so even there a save changes no column. |
| NodesScreen.ServerBluetoothSaved | backend/app/api/nodes.py:176-179 | Sent under the server's column names, the switch and the scanner address are stored. |
| NodesScreen.ToggleChannel | frontend/src/components/Nodes/Nodes.tsx:282-289 | `c` present: every occurrence goes, and the result is a subsequence of the list holding every other channel as many times as before; absent: `c` is appended; membership of `c` flips and of nothing else. |
| NodesScreen.RemovedCount | frontend/src/components/Nodes/Nodes.tsx:285 | Filtering out `c` shortens the list by its number of occurrences. |
| NodesScreen.ToggleTwice | frontend/src/components/Nodes/Nodes.tsx:282-289 | Toggling twice from a list without `c` restores the list exactly. |
| NodesScreen.ToggleTwiceMoves | frontend/src/components/Nodes/Nodes.tsx:282-289 | Toggling twice from a list that holds `c` is not a restore: `[3, 1]` becomes `[1, 3]`. |
| NodesScreen.StatusColor | frontend/src/components/Nodes/Nodes.tsx:416 | active → success, inactive → error, else warning. |
| IotModels.Commit | backend/app/models/iot.py:45-136 | A commit keeps the new tables iff every unique constraint holds and no gateway code, gateway name, gateway site, node id or node name is null; otherwise 500 and nothing changes; a consistent store stays consistent. |
| IotModels.AddGatewayConsistent | backend/app/models/iot.py:45-48 | Inserting a gateway under a fresh key, with a fresh code, a fresh or null MAC and non-null code, name and site, keeps every constraint. |
| IotModels.AddNodeConsistent | backend/app/models/iot.py:96-136 | Inserting a node under a fresh key, with a free `(gateway, node_id)`, a fresh or null MAC and non-null id and name, keeps every constraint. |
| IotModels.UnfilledGatewayRefused | backend/app/models/iot.py:45-47 | A gateway row with a null code, name or site can never be part of a consistent store. |
| IotModels.UnfilledNodeRefused | backend/app/models/iot.py:97-98 | A node row with a null id or name can never be part of a consistent store. |
| IotModels.DeleteGateway | backend/app/models/iot.py:64 | Deleting a gateway removes it and exactly its nodes; readings stay. |
| IotModels.DeleteSite | backend/app/models/iot.py:27 | Deleting a site removes it, its gateways, and exactly their nodes. |
| IotModels.DeleteGatewayKeepsAttached | backend/app/models/iot.py:64 | The cascade leaves no node without its gateway and keeps every unique constraint. |
| IotModels.DeleteSiteKeepsAttached | backend/app/models/iot.py:27-64 | After a site's delete every gateway is on a remaining site and every node on a remaining gateway. |
| IotModels.CleanupOldData | backend/app/models/iot.py:205-211 | Only readings change, and every reading kept is at or after `now - days`. |
| IotModels.CleanupAccounts | backend/app/models/iot.py:205-211 | Every reading at or after the cutoff is kept, only old readings go, and the count answered is exactly how many went. |
| IotModels.KeptPlusDeleted | backend/app/models/iot.py:208-211 | Kept plus deleted is the number of readings. |
| Seqs.SortDescKeepsTies | backend/app/api/nodes.py:200-207 | Rows that tie on the sort key keep the order they came in. |
| Seqs.FilterMultiplicity | frontend/src/components/Nodes/Nodes.tsx:285 | Filtering keeps every copy of an item that passes and none of one that fails. |
| Seqs.FilterSubsequence | backend/app/api/nodes.py:12-30 | Filtering keeps the surviving rows in table order. |
| Seqs.Query | backend/app/api/nodes.py:200-207 | `ORDER BY key DESC LIMIT n` over the matching rows: sorted newest first, exactly `min(n, matching)` rows (all of them for a negative `n`), drawn from the matching rows, and every matching row left out is no newer than any kept. |
| NodesApi.ListNodes | backend/app/api/nodes.py:12-30 | Exactly the rows matching every given filter, as a subsequence of the table (table order) with one entry per matching row. |
| NodesApi.EmptyParametersFilterNothing | backend/app/api/nodes.py:22-25 | Empty or absent gateway and status parameters filter nothing. |
| NodesApi.BluetoothParameter | backend/app/api/nodes.py:26-27 | The `bluetooth_enabled` filter keeps a node iff its flag equals whether the parameter says `true` in any case. |
| NodesApi.FindGateway | backend/app/api/nodes.py:48-51 | The gateway is found iff the id is a string key of an existing gateway. |
| NodesApi.NodeColumns | backend/app/api/nodes.py:58-75 | The create sets exactly the columns of the constructor call; `status` takes its column default; every other column takes the body's value when it is not null, and otherwise the column's default (`sensor`, `false`) or null when the column has none. |
| NodesApi.CreateNode | backend/app/api/nodes.py:39-80 | 400 iff `name` or `gateway_id` is falsy or `node_id` is null; 404 iff the gateway is unknown; 409 iff `(gateway, node_id)` is taken; success inserts one node on an existing gateway whose columns are those of the constructor call; the constraints are kept. |
| NodesApi.CreateNodeDefaults | backend/app/models/iot.py:102-122 | A created node has status `offline`; a type, Bluetooth flag or battery flag left out or sent as null is `sensor`, `false`, `false`; a non-null type and the name are kept as sent. |
| NodesApi.CreateNodeCommits | backend/app/api/nodes.py:53-80 | With a free `(gateway, node_id)`, a new key and a free MAC, the create succeeds: the truthy name satisfies NOT NULL. |
| NodesApi.UpdateNode | backend/app/api/nodes.py:82-103 | 404 for an unknown node; no body is a 500; a body setting `name` to null is a 500 with nothing changed; only whitelisted keys present in the body change; `node_id`, gateway and MAC never change. |
| NodesApi.UpdateNodeCommits | backend/app/api/nodes.py:90-99 | An update of an existing node with a body commits iff it does not set `name` to null. |
| NodesApi.SameKeysConsistent | backend/app/models/iot.py:96-136 | Rewriting a node's other columns, with its name left non-null, keeps every unique and not-null constraint. |
| NodesApi.UpdateAdcConfig | backend/app/api/nodes.py:145-166 | 404 for an unknown node; 400 iff the body is empty or lacks `adc_config`; otherwise it stores `adc_config`, and `sensor_conversions` when given, and nothing else. |
| NodesApi.UpdateBluetooth | backend/app/api/nodes.py:168-187 | 404 for an unknown node; no body is a 500; only the three Bluetooth columns present in the body change. |
| NodesApi.ReassignGateway | backend/app/api/nodes.py:116-143 | 404 for an unknown node; 400 iff `gateway_id` is falsy; past that, 404 "Gateway not found" iff the target is unknown, and 409 iff the target is known and a different node there has the same `node_id`; success moves the node only. |
| NodesApi.ReassignCommits | backend/app/api/nodes.py:116-143 | On a consistent store a reassign never fails at commit: it succeeds exactly when the node exists, `gateway_id` is truthy and names a stored gateway, and no other node there has the same `node_id`. |
| NodesApi.ReassignConsistent | backend/app/api/nodes.py:132-141 | Moving a node to a gateway where its `node_id` is free keeps every unique and not-null constraint. |
| NodesApi.ReassignToSameGateway | backend/app/api/nodes.py:132-141 | Reassigning a node to its own gateway succeeds and changes nothing. |
| NodesApi.DeleteNode | backend/app/api/nodes.py:105-114 | 404 for an unknown node; otherwise exactly that node goes, every other node keeps its row, and the other tables stay. |
| NodesApi.NodeSensorData | backend/app/api/nodes.py:189-209 | 404 for an unknown node; otherwise that node's matching readings, newest first, exactly `min(limit, matching)` of them (limit 1000 by default, a negative limit returns all), and every matching reading left out is no newer than any returned. |
| NodesApi.Codes | backend/app/api/nodes.py:227-228 | The QR code of each row, in order. |
| NodesApi.FirstWith | backend/app/api/nodes.py:225-233 | The row that first carries a code. |
| NodesApi.FirstCodes | backend/app/api/nodes.py:225-233 | The rows kept carry distinct codes, each row is the first with its code, and every code not yet seen is kept. |
| NodesApi.FirstCodesDedup | backend/app/api/nodes.py:225-233 | The codes kept are the first occurrences of the codes, in input order. |
| NodesApi.FirstCodesSubsequence | backend/app/api/nodes.py:225-233 | The rows kept are a subsequence of the input. |
| NodesApi.QrHistory | backend/app/api/nodes.py:211-235 | 404 for an unknown node; otherwise the first row of each distinct code among the rows read, in the order read. |
| NodesApi.QrRowsRead | backend/app/api/nodes.py:217-223 | The node's coded readings, newest first, exactly `min(limit, coded)` of them (100 by default), and every coded reading left out is no newer than any read. |
| NodesApi.QrHistoryFirstOccurrences | backend/app/api/nodes.py:225-233 | Each distinct code appears once, at its first occurrence, with no duplicates, in input order. |
| IotGatewaysApi.ListGateways | backend/app/api/iot_gateways.py:12-27 | Exactly the gateways matching the site and status filters, as a subsequence of the table (table order) with one entry per matching row. |
| IotGatewaysApi.GetGateway | backend/app/api/iot_gateways.py:29-35 | 404 for an unknown gateway; `node_count` is the number of that gateway's node rows; the nodes are included exactly when asked for, and then they are exactly that gateway's nodes of the table, `node_count` of them. |
| IotGatewaysApi.NodesLeftOutByDefault | backend/app/api/iot_gateways.py:33 | Without `include_nodes` the answer carries no nodes. |
| IotGatewaysApi.NodesOf | backend/app/api/iot_gateways.py:112 | Exactly the rows whose gateway is the given key, in table order. |
| IotGatewaysApi.NodesOfCount | backend/app/api/iot_gateways.py:122 | The gateway's node list is as long as the set of table positions holding its nodes. |
| IotGatewaysApi.NodesOfTable | backend/app/api/iot_gateways.py:112 | Over the node table, the gateway's list holds only stored nodes and every stored node of that gateway. |
| IotGatewaysApi.GatewayNodes | backend/app/api/iot_gateways.py:107-114 | 404 iff the gateway is unknown; otherwise exactly that gateway's nodes of the table, as many as its node rows. |
| IotGatewaysApi.GatewayNodesAgree | backend/app/api/iot_gateways.py:29-35 | `GET /<id>?include_nodes=true` lists the same nodes as `GET /<id>/nodes`. |
| IotGatewaysApi.GatewayColumns | backend/app/api/iot_gateways.py:55-68 | The create sets exactly the columns of the constructor call; `status` takes its column default; every column but the topic prefix takes the body's value when it is not null, and otherwise its column default (`max_nodes` 30) or null. |
| IotGatewaysApi.CreateGateway | backend/app/api/iot_gateways.py:37-72 | 400 iff name, `gateway_id` or `site_id` is falsy; 404 iff the site is unknown; 409 iff the `gateway_id` is taken; success inserts one gateway on an existing site whose columns are those of the constructor call; the constraints are kept. |
| IotGatewaysApi.CreateGatewayDefaults | backend/app/api/iot_gateways.py:55-68 | Status `offline`; `max_nodes` 30 when left out or null and as sent otherwise; the topic prefix as sent when present and `apru40/gateway/<gateway_id>` when absent. |
| IotGatewaysApi.CreateGatewayCommits | backend/app/api/iot_gateways.py:52-72 | With a fresh code, key and MAC on an existing site, the create succeeds: the truthy code, name and site satisfy NOT NULL. |
| IotGatewaysApi.UpdateGateway | backend/app/api/iot_gateways.py:74-94 | 404 for an unknown gateway; no body is a 500; a body setting `name` or `site_id` to null is a 500 with nothing changed; only whitelisted keys present in the body change; `gateway_id` never changes; the constraints are kept. |
| IotGatewaysApi.UpdateSiteUnchecked | backend/app/api/iot_gateways.py:82-90 | `site_id` is written without an existence check: the update succeeds iff the new site id and any new name are non-null, and then the gateway's site is the id sent. |
| IotGatewaysApi.UpdateGatewayCommits | backend/app/api/iot_gateways.py:82-92 | An update of an existing gateway that leaves the MAC alone commits iff it sets neither `name` nor `site_id` to null. |
| IotGatewaysApi.SameKeysConsistent | backend/app/models/iot.py:45-48 | Rewriting a gateway's other columns, with the code and MAC kept and name and site non-null, keeps every constraint. |
| IotGatewaysApi.DeleteGatewayEndpoint | backend/app/api/iot_gateways.py:96-105 | 404 for an unknown gateway; otherwise the gateway and exactly its nodes go; the other gateways, the kept nodes' rows, the sites and the readings stay. |
| IotGatewaysApi.Stats | backend/app/api/iot_gateways.py:116-144 | 404 for an unknown gateway; a 500 iff its `max_nodes` is null; otherwise `total_nodes` is the number of its node rows, `online_nodes + offline_nodes = total_nodes`, `max_nodes` and the code are the gateway's, and the status and flag counts are within the total. |
| IotGatewaysApi.StatusCount | backend/app/api/iot_gateways.py:137-138 | Counting a status among the gateway's nodes is the number of table positions holding its nodes with that status. |
| IotGatewaysApi.FlagCount | backend/app/api/iot_gateways.py:140-141 | Counting a truthy flag among the gateway's nodes is the number of table positions holding its nodes with that flag set. |
| IotGatewaysApi.StatsCountsExact | backend/app/api/iot_gateways.py:122-141 | Each count of the statistics is the number of the gateway's node rows with that status or flag; `offline_nodes` is the rest of the total. |
| IotGatewaysApi.StatsAgreeWithListings | backend/app/api/iot_gateways.py:116-144 | For a gateway with a non-empty key and a non-null `max_nodes`, `total_nodes` equals the detail view's `node_count` and the length of `GET /nodes?gateway_id=<key>`; `online_nodes` equals the length of that listing with `status=online`. |
| IotGatewaysApi.SendCommand | backend/app/api/iot_gateways.py:146-173 | 404 for an unknown gateway; 400 iff the body is empty or `command` is falsy; the reply echoes the command, with `params` defaulting to `{}`. |
| IotGatewaysApi.SendCommandAgreesWithDetail | backend/app/api/iot_gateways.py:146-173 | The command endpoint answers 404 exactly when the detail view does, and a sent command names the `gateway_id` the detail view shows. |
| LegacyModels.Commit | backend/app/models/__init__.py:16-98 | A commit keeps the new tables iff the unique and not-null constraints hold; otherwise 500 and nothing changes. |
| LegacyModels.Find | backend/app/api/devices.py:48 | `get_or_404`: the first row with the key, or none iff no row has it. |
| LegacyModels.NextId | backend/app/models/__init__.py:15 | A new primary key is positive and above every key in the table. |
| LegacyModels.AppendFreshKey | backend/app/models/__init__.py:15 | A row with a key above every other keeps primary keys unique. |
| LegacyModels.DeleteDevice | backend/app/models/__init__.py:28-29 | The device and exactly its sensors go; alerts stay, with their reference nulled; users stay. |
| LegacyModels.DeleteDeviceConsistent | backend/app/models/__init__.py:16-29 | Deleting a device keeps every unique and not-null constraint. |
| LegacyModels.Attached | backend/app/api/gateways.py:21 | Exactly the devices whose `gateway_id` is the given one. |
| DevicesApi.ListDevices | backend/app/api/devices.py:13-42 | Exactly the devices matching the given filters, in table order, with `total` their number, and the tables unchanged; when none match, the tables are those the seeding attempt leaves, listed the same way after a seeding that commits, and a 500 after one that breaks the session. |
| DevicesApi.BrokenSeedingListedLater | backend/app/api/devices.py:129-183 | After a seeding that breaks, the request is a 500, yet the rows it committed are listed by the next unfiltered request. |
| DevicesApi.Listed | backend/app/api/devices.py:20-27 | The matching rows of a table, as a subsequence with one entry per matching row, and their number. |
| DevicesApi.NoFiltersListAll | backend/app/api/devices.py:17-25 | With no filters a non-empty table lists every device in table order, and nothing is written. |
| DevicesApi.GetDevice | backend/app/api/devices.py:44-53 | 404 for an unknown id; otherwise the device with exactly its sensors. |
| DevicesApi.CreateDevice | backend/app/api/devices.py:55-82 | 400 iff the body is empty or `device_id` or `name` is falsy; 409 iff the `device_id` exists; success appends one device with a fresh key, the body's code, name, MAC, gateway and firmware, the current time, and a non-null status. |
| DevicesApi.CreateDeviceDefaults | backend/app/api/devices.py:72-75 | Type is `node` when absent and as sent otherwise; status is `offline` when absent or null and as sent otherwise. |
| DevicesApi.CreateDeviceCommits | backend/app/api/devices.py:69-82 | A create with a fresh code, non-null type and free MAC commits. |
| DevicesApi.NullTypeRefused | backend/app/api/devices.py:72 | An explicit `"type": null` gets past the checks and is refused at commit with 500. |
| DevicesApi.Patch | backend/app/api/devices.py:91-98 | Only name, status and firmware change, when present, and `updated_at` is always refreshed. |
| DevicesApi.UpdateDevice | backend/app/api/devices.py:84-101 | 404 for an unknown id; no body is a 500; otherwise `name`, `status` and `firmware_version` take the body's value when present and keep theirs when absent, `updated_at` becomes now, every other column stays, and the row is committed in place. |
| DevicesApi.UpdateDeviceCommits | backend/app/api/devices.py:84-101 | On a consistent table an update of an existing device succeeds iff it does not set `name` to null. |
| DevicesApi.DeleteDeviceEndpoint | backend/app/api/devices.py:103-112 | 404 for an unknown id; otherwise exactly the device and its sensors go, every other device and sensor stays, the alerts that named it have their reference nulled and the rest stay, and the users stay. |
| DevicesApi.DeviceSensors | backend/app/api/devices.py:114-127 | 404 iff the id is unknown; otherwise that device's readings, newest first, exactly `min(100, readings)` of them, every reading left out no newer than any returned, with `total` equal to the number returned. |
| AlertsApi.ListAlerts | backend/app/api/alerts.py:13-42 | Exactly the alerts matching the given filters, as a multiset, sorted by `created_at` descending. |
| AlertsApi.GetAlert | backend/app/api/alerts.py:44-49 | 404 for an unknown id; otherwise that alert. |
| AlertsApi.Acknowledge | backend/app/api/alerts.py:51-59 | 404 for an unknown id; status becomes `acknowledged` from any status; `resolved_at` and every other field stay. |
| AlertsApi.Resolve | backend/app/api/alerts.py:61-70 | 404 for an unknown id; status becomes `resolved` and `resolved_at` is set to now. |
| AlertsApi.ResolveAgain | backend/app/api/alerts.py:65-68 | Resolving twice keeps the status `resolved` and moves `resolved_at`. |
| AlertsApi.AcknowledgeReopens | backend/app/api/alerts.py:55-57 | Acknowledging a resolved alert makes it acknowledged again with `resolved_at` still set, and the screen offers Resolve again. |
| AlertsApi.OfferedActionsShrink | backend/app/api/alerts.py:51-70 | From an active alert, each transition strictly shrinks the set of actions the screen offers. |
| StatsApi.Percentage | backend/app/api/stats.py:39 | A share of at most the whole, in percent, between 0 and 100; 0 when the whole is 0. |
| StatsApi.DashboardStats | backend/app/api/stats.py:12-48 | `total` is the number of devices; online + offline ≤ total; gateways + nodes ≤ total; critical ≤ active ≤ alerts; recent heartbeats ≤ devices; the percentage is online over total, or 0 for an empty table. |
| StatsApi.DashboardCountsExact | backend/app/api/stats.py:17-30 | Each dashboard count is the number of devices or alerts meeting that filter: status online or offline, type gateway or node, active or active critical alerts, and devices seen in the last five minutes. |
| StatsApi.StatusCount | backend/app/api/stats.py:18-19 | Counting a status is the number of device positions with exactly that status. |
| StatsApi.KindCount | backend/app/api/stats.py:20-21 | Counting a type is the number of device positions with exactly that type. |
| StatsApi.SeenCount | backend/app/api/stats.py:28-30 | Counting recent devices is the number of device positions last seen at or after the cutoff. |
| StatsApi.AlertCounts | backend/app/api/stats.py:24-25 | Active and active critical alerts count the alert positions with those values. |
| StatsApi.AttachedCounts | backend/app/api/stats.py:58-63 | A gateway's attached list is as long as the positions of its devices, and its online ones are the positions of its online devices. |
| StatsApi.CountsBounded | backend/app/api/stats.py:17-25 | Disjoint exact statuses and types count at most the table; critical alerts are among the active ones. |
| StatsApi.Entry | backend/app/api/stats.py:58-64 | A gateway's entry lists exactly its nodes; `node_count` is the number of devices whose `gateway_id` is the gateway's key and `online_count` the number of those that are online. |
| StatsApi.GatewaysInOrder | backend/app/api/stats.py:54 | The gateway devices, in table order, include every gateway device of the table. |
| StatsApi.NetworkStats | backend/app/api/stats.py:50-69 | One entry per gateway device, in order, `total_gateways` equal to the number of entries, and each entry's counts are the number of devices attached to it and of those online. |
| GatewaysApi.Row | backend/app/api/gateways.py:18-24 | `node_count` is the number of devices whose `gateway_id` is the gateway's key and `online_nodes` the number of those that are online. |
| GatewaysApi.ListGateways | backend/app/api/gateways.py:12-29 | Exactly the devices of type `gateway`, each once, with `total` equal to their count and each row's counts those of the devices attached to it. |
| GatewaysApi.ListingMatchesNetwork | backend/app/api/gateways.py:12-29 | The listing's gateways and counts agree with the network statistics. |
| GatewaysApi.NodesOfGateway | backend/app/api/gateways.py:31-47 | 404 iff the id is unknown; 400 iff the device is not a gateway; otherwise exactly its nodes, with `total` equal to their number. |
| Auth.ExtractToken | backend/app/api/auth.py:28-30 | No token iff the header has no space; otherwise the second space-separated field, which runs from the first space to the next space or the end. |
| Auth.BearerRoundTrip | frontend/src/services/api.ts:21 | The token is recovered from the header the client builds, for any token without spaces. |
| Auth.AnySchemeAccepted | backend/app/api/auth.py:28 | The scheme word is not checked. |
| Auth.TokenRequired | backend/app/api/auth.py:20-45 | No header → "Token is missing"; a header without a space → "Token format invalid"; an empty token → "Token is missing"; admitted iff a non-empty token decodes as valid. |
| Auth.EmptyTokenMissing | backend/app/api/auth.py:28-33 | A first word followed by a lone space (`Bearer `), or by two spaces before the token, gives an empty token, refused as missing. |
| Auth.ClientHeaderAdmitted | backend/app/api/auth.py:20-45 | A request with the client's header is admitted iff its token is valid. |
| Auth.Login | backend/app/api/auth.py:47-75 | 400 iff the body is empty or the username or password is falsy; 200 with the demo user iff both match the demo pair; otherwise 401. |
| Auth.LoginTokenAdmitted | backend/app/api/auth.py:20-75 | The token a successful login returns, sent back as `Bearer <token>`, is extracted unchanged and admitted iff the decoder accepts it. |
| MqttService.Route | backend/app/services/mqtt_service.py:40-45 | `/data` anywhere → sensor data; else `/alert` → alert; else `/status` → status; else nothing. |
| MqttService.OnMessage | backend/app/services/mqtt_service.py:31-48 | A payload that fails to decode runs no handler; otherwise at most one handler runs, the one routing picks. |
| MqttService.DataWinsOverAlert | backend/app/services/mqtt_service.py:40-41 | `x/alert/data` routes to sensor data. |
| MqttService.FilterLevels | backend/app/services/mqtt_service.py:24-26 | The three subscriptions split into the levels they name. |
| MqttService.OnConnect | backend/app/services/mqtt_service.py:19-29 | A refused connection subscribes to nothing; an accepted one to exactly `apru40/+/data`, `apru40/+/alert/#` and `apru40/+/status`, in that order, whose levels are the data, alert and status filters. |
| MqttService.FilterTexts | backend/app/services/mqtt_service.py:24-26 | The three filters joined by `/` are the three subscription strings. |
| MqttService.ThirdLevel | backend/app/services/mqtt_service.py:24-26 | A topic matched by one of the filters has that filter's third level. |
| MqttService.RouteByLevel | backend/app/services/mqtt_service.py:24-26 | The routing the subscriptions imply: by the third topic level. |
| MqttService.RouteByLevelFollowsSubscriptions | backend/app/services/mqtt_service.py:24-26 | A topic matched by a subscription routes to that subscription's handler. |
| MqttService.DataGatewayStatusSubscribed | backend/app/services/mqtt_service.py:24-26 | `apru40/data1/status` is matched by the status filter and not by the data filter. |
| MqttService.DataGatewayStatusContainsData | backend/app/services/mqtt_service.py:40-41 | Substring routing sends `apru40/data1/status` to sensor data. |
| MqttService.StatusOfDataGatewayMisrouted | backend/app/services/mqtt_service.py:24-45 | The status of a gateway named `data1` arrives on the status subscription but goes to the sensor-data handler, where level routing sends it to the status handler. |
| MqttService.SubscriptionsRouteByLevel | backend/app/services/mqtt_service.py:24-26 | Every topic an accepted connection subscribes to routes by level to the handler of its subscription. |
| MqttService.Connect | backend/app/services/mqtt_service.py:65-81 | The client is stored even when the connect fails; its loop runs iff the broker was reachable. |
| MqttService.Disconnect | backend/app/services/mqtt_service.py:83-87 | No-op without a client; otherwise the loop stops and the client stays. |
| MqttService.Publish | backend/app/services/mqtt_service.py:89-92 | No-op without a client; otherwise exactly one message is appended. |
| MqttService.PublishAfterDisconnect | backend/app/services/mqtt_service.py:77-92 | After a disconnect, or a failed connect, `publish` still hands the message to the client. |

## Left out

- Transport: socket.io, axios, Flask routing, JWT encoding and decoding (the decoder is a parameter of `Auth.TokenRequired`), SQLAlchemy queries, and the paho-mqtt network loop.
- The `subprocess` calls of the MQTT administration endpoints (`sudo cat`, `mosquitto_passwd`, `systemctl restart`) and `backend/scripts/update_acl.py`. The password tool's success is a parameter. The ACL read is `Missing`, `Unreadable` or `Contents`. The ACL write is returned as text. A failing write or restart is not modelled.
- The broker status and configuration endpoints of the MQTT administration blueprint: they only run commands.
- Async and timers: out-of-order refetches, the dashboard's 30 s polling, `setTimeout` message clearing, the APScheduler jobs of `background_tasks.py`. A fetch's answer is a parameter (`Ui.Fetched`).
- Floating point: `online_percentage` is modelled over reals with no rounding, sensor values are reals, and `capacity_percentage` and `toFixed` are not modelled. IotGatewaysApi.Stats fails with 500 only for a null `max_nodes`; a non-numeric one falls under the type coercion below.
- Random mock data: the seeding of an empty device or alert table is a parameter. For devices it is a `DevicesApi.Seeding`: the tables it leaves, and whether it committed (`Seeded`) or broke the session (`Broken`, a 500 that keeps what was committed before the failure); which rows the random seeding writes is not modelled. AlertsApi.ListAlerts: the alert seeding is taken to finish normally, since the rows it adds break no constraint; a database failure there is not modelled.
- Time: clocks are parameters (`now`) and datetimes are whole seconds; the `isoformat` rendering of `to_dict` is not modelled. `fromisoformat` and the date-range parameters of the history endpoints are not modelled.
- Rendering: React and MUI markup, locale date strings, the chart and table widgets. Colours are an enumeration.
- `sites.py`, `sensor_data.py` (CSV export and history), backend `services/websocket.py`, `App.tsx`, `Login.tsx`, `Sites.tsx`, `Gateways.tsx`, `run.py`, and the profile and refresh endpoints of `auth.py`: thin glue with no logic stated here.
- Foreign keys: SQLite does not enforce them, so dangling references are stored as written.
- SQL type coercion of JSON values written to integer or boolean columns is not modelled: values are stored as sent.
- The JSON request decoding itself: a missing or undecodable body is `None`.
- Text: whitespace and case are the ASCII ones; Python's Unicode `isspace` and `lower` are not modelled.
- `Json.Format` renders a list or an object as a placeholder, not as Python's `repr`.
- Acl.DecodePerms: a permission whose access or topic is not a string is treated as an error (500), where Python would format it with `str()`.
- Acl.DeleteTextParses, Acl.UpdateTextParses, Acl.DeletedUserGone and Acl.UpdatedUserListed: proved for an ACL where every header naming the user strips to exactly `user <name>` (no doubled inner space) and for a single-word name. The loops match text, not parsed names, and the other ACLs are not covered.
- Acl.AppendUserParses and Acl.CreatedUserListed: proved for a single-word username (no whitespace, non-empty) and for permissions whose access and topic are single non-empty words; a username with a space is written as a header that parses back to its first word only; `Acl.EmptyTopicDropped` shows what happens to an empty topic.
- IotGatewaysApi.UpdateGatewayCommits and IotGatewaysApi.UpdateSiteUnchecked: stated for a body that does not set `mac_address`, since a new MAC may collide with another gateway's and fail at commit.
- IotGatewaysApi.StatsAgreeWithListings: stated for a non-empty gateway key, since `GET /nodes` ignores an empty `gateway_id` parameter; and for a non-null `max_nodes`, since otherwise the statistics fail.
- MqttConfigScreen.UpdatePermission: requires the index in range; the dialog only passes indices of rendered entries.
- NodesApi.NodeSensorData, DevicesApi.DeviceSensors and AlertsApi.ListAlerts: the order is by timestamp, descending and stable (`Seqs.SortDescKeepsTies`); ties keep table order, where SQL leaves it unspecified.
- WebSocket.Connect: the socket's own reconnection and the `connect`/`disconnect` log handlers are not modelled; only the handshake that marks a socket connected is (`WebSocket.Established`).
- The frontend's Bluetooth save goes to `/bluetooth-config` (frontend/src/services/api.ts:108-109), while the server's route is `/bluetooth`, so it never reaches `update_bluetooth_config`. Routes are not modelled. `NodesScreen.BluetoothSaveIgnored` states what would happen if it did reach it.
- `MqttService.OnMessage` follows the code's substring routing (`MqttService.Route`). The corrected `MqttService.RouteByLevel` is stated beside it, not used by it.

## Findings

| source | as written | input that shows it | evidently intended | confidence | as-written member | corrected member |
|---|---|---|---|---|---|---|
| backend/app/services/mqtt_service.py:40-45 | A message is routed by substring: any topic containing `/data` goes to the sensor-data handler, before `/alert` and `/status` are looked at. | `apru40/data1/status`, the status of a gateway named `data1`, arrives on the `apru40/+/status` subscription and is handed to the sensor-data handler. | Route by the level the subscriptions of lines 24-26 fix: the third level `data`, `alert` or `status`. | not executed | MqttService.StatusOfDataGatewayMisrouted | MqttService.SubscriptionsRouteByLevel |
| frontend/src/components/Nodes/Nodes.tsx:233 | `handleUpdateADC` posts the dialog's configuration object itself. `update_adc_config` (backend/app/api/nodes.py:152-153) requires it under an `adc_config` key. | Any ADC dialog save on an existing node: the body holds `adc_type`, `enabled_channels`, … and no `adc_config`, so the answer is 400 "ADC configuration is required". | Send `{adc_config: config}`, so that the server stores the dialog's configuration. | not executed | NodesScreen.AdcSaveRefused | NodesScreen.WrappedAdcSaved |
