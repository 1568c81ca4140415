/** The relay's device registry and router (unity-debugger/server.js).

    Agents (game instances) connect over TCP and announce themselves with `device_info`;
    observers (browsers) connect over WebSocket, pick a device with `select_device` and send it
    code with `execute_code`. The relay keeps two maps, `devices` and `webSocketClients`, and
    broadcasts a full device snapshot to every observer after each change of `devices`.

    What the relay sends is recorded per destination: `toObservers[ws]` is everything sent on
    WebSocket `ws`, `toAgents[socket]` every line written to TCP socket `socket`. */
module Relay {

  import opened JsValues
  import opened Framer

  /** Identity of a TCP socket object. */
  type SocketId = nat
  /** Identity of a WebSocket object. */
  type WsId = nat

  /** An entry of `devices`: the `data` of the agent's `device_info` and its socket. */
  datatype Device = Device(info: map<string, Value>, socket: SocketId)

  /** An entry of `webSocketClients`. */
  datatype Client = Client(ws: WsId, currentDevice: Value)

  /** The string-coerced fields of a forwarded log. */
  datatype LogData = LogData(kind: string, message: string, stackTrace: string, timestamp: string)

  /** What the relay sends to an observer. */
  datatype ToObserver =
    | DeviceListUpdated(devices: map<Value, map<string, Value>>)
    | LogLine(deviceId: Value, data: LogData)

  /** What the relay writes to an agent: one `execute_code` line. */
  datatype ToAgent = ExecuteCode(code: Value)

  /** A parsed agent frame: its `type` and its `data` object (`None` when absent or null). */
  datatype AgentMessage = AgentMessage(kind: Value, data: Option<map<string, Value>>)

  /** A parsed observer message: its `type`, `deviceId` and `code` fields. */
  datatype ObserverMessage = ObserverMessage(kind: Value, deviceId: Value, code: Value)

  /** The relay's whole state. */
  datatype Hub = Hub(
    devices: map<Value, Device>,
    clients: map<string, Client>,
    toObservers: map<WsId, seq<ToObserver>>,
    toAgents: map<SocketId, seq<ToAgent>>)

  /** Every WebSocket is registered under at most one client id. */
  ghost predicate DistinctSockets(clients: map<string, Client>)
  {
    forall a, b {:trigger WsOf(clients, a), WsOf(clients, b)} ::
      a in clients && b in clients && WsOf(clients, a) == WsOf(clients, b) ==> a == b
  }

  /** The WebSocket of a registered client. */
  function WsOf(clients: map<string, Client>, id: string): WsId
    requires id in clients
  {
    clients[id].ws
  }

  /** Removing a client keeps the sockets distinct. */
  lemma DistinctRemove(clients: map<string, Client>, id: string)
    requires DistinctSockets(clients)
    ensures DistinctSockets(clients - {id})
  {
    var c' := clients - {id};
    forall a, b | a in c' && b in c' && WsOf(c', a) == WsOf(c', b)
      ensures a == b
    {
      assert WsOf(clients, a) == WsOf(clients, b);
    }
  }

  /** Storing a client under `id` keeps the sockets distinct when its socket is new or is the
      one `id` already had. */
  lemma DistinctStore(clients: map<string, Client>, id: string, c: Client)
    requires DistinctSockets(clients)
    requires forall x :: x in clients && x != id ==> clients[x].ws != c.ws
    ensures DistinctSockets(clients[id := c])
  {
    var c' := clients[id := c];
    forall a, b | a in c' && b in c' && WsOf(c', a) == WsOf(c', b)
      ensures a == b
    {
      if a != id && b != id {
        assert WsOf(clients, a) == WsOf(clients, b);
      }
    }
  }

  /** A property of a JavaScript object, `undefined` when missing. */
  function Get(obj: map<string, Value>, key: string): Value
  {
    if key in obj then obj[key] else Undefined
  }

  // ---------------------------------------------------------------------------------------
  // Sending.

  /** Everything sent so far on a channel. */
  function Sent<K, M>(out: map<K, seq<M>>, k: K): seq<M>
  {
    if k in out then out[k] else []
  }

  /** One `send`/`write` of `m` on channel `k`. */
  function Send<K, M>(out: map<K, seq<M>>, k: K, m: M): map<K, seq<M>>
  {
    out[k := Sent(out, k) + [m]]
  }

  /** `m` sent once on each channel of `targets`. */
  function Broadcast<K, M>(out: map<K, seq<M>>, targets: set<K>, m: M): map<K, seq<M>>
  {
    map k | k in out.Keys + targets :: if k in targets then Sent(out, k) + [m] else out[k]
  }

  /** Broadcasting to no channel sends nothing. */
  lemma BroadcastNone<K, M>(out: map<K, seq<M>>, m: M)
    ensures Broadcast(out, {}, m) == out
  {
  }

  /** Broadcasting to one more channel is one more send. */
  lemma BroadcastAdd<K, M>(out: map<K, seq<M>>, targets: set<K>, k: K, m: M)
    requires k !in targets
    ensures Broadcast(out, targets + {k}, m) == Send(Broadcast(out, targets, m), k, m)
  {
  }

  /** The WebSockets of the clients registered under `ids`. */
  function SocketsOf(clients: map<string, Client>, ids: set<string>): set<WsId>
  {
    set id | id in ids && id in clients :: clients[id].ws
  }

  /** The WebSockets of the clients in `ids` whose selected device is `device`. */
  function WatchersOf(clients: map<string, Client>, ids: set<string>, device: Value): set<WsId>
  {
    set id | id in ids && id in clients && clients[id].currentDevice == device :: clients[id].ws
  }

  lemma SocketsOfAdd(clients: map<string, Client>, ids: set<string>, id: string)
    requires DistinctSockets(clients) && id in clients && id !in ids
    ensures SocketsOf(clients, ids + {id}) == SocketsOf(clients, ids) + {clients[id].ws}
    ensures clients[id].ws !in SocketsOf(clients, ids)
  {
    forall x | x in ids && x in clients
      ensures clients[x].ws != clients[id].ws
    {
      assert WsOf(clients, x) != WsOf(clients, id);
    }
  }

  lemma WatchersOfAdd(clients: map<string, Client>, ids: set<string>, id: string, device: Value)
    requires DistinctSockets(clients) && id in clients && id !in ids
    ensures clients[id].currentDevice == device ==>
      WatchersOf(clients, ids + {id}, device) == WatchersOf(clients, ids, device) + {clients[id].ws}
    ensures clients[id].currentDevice != device ==>
      WatchersOf(clients, ids + {id}, device) == WatchersOf(clients, ids, device)
    ensures clients[id].ws !in WatchersOf(clients, ids, device)
  {
    forall x | x in ids && x in clients
      ensures clients[x].ws != clients[id].ws
    {
      assert WsOf(clients, x) != WsOf(clients, id);
    }
  }

  /** Before a loop over the client map nothing has been sent. */
  lemma LoopStart<M>(clients: map<string, Client>, out: map<WsId, seq<M>>, device: Value, m: M)
    ensures Broadcast(out, SocketsOf(clients, clients.Keys - clients.Keys), m) == out
    ensures Broadcast(out, WatchersOf(clients, clients.Keys - clients.Keys, device), m) == out
  {
    assert clients.Keys - clients.Keys == {};
    assert SocketsOf(clients, {}) == {} && WatchersOf(clients, {}, device) == {};
    BroadcastNone(out, m);
  }

  /** One more client of a broadcast loop over the client map, `todo` being the ids not yet
      visited. */
  lemma SocketsStep<M>(clients: map<string, Client>, todo: set<string>, id: string,
                       out0: map<WsId, seq<M>>, cur: map<WsId, seq<M>>, m: M)
    requires DistinctSockets(clients) && todo <= clients.Keys && id in todo
    requires cur == Broadcast(out0, SocketsOf(clients, clients.Keys - todo), m)
    ensures Send(cur, clients[id].ws, m) == Broadcast(out0, SocketsOf(clients, clients.Keys - (todo - {id})), m)
  {
    var done := clients.Keys - todo;
    assert clients.Keys - (todo - {id}) == done + {id};
    SocketsOfAdd(clients, done, id);
    BroadcastAdd(out0, SocketsOf(clients, done), clients[id].ws, m);
  }

  /** One more client of a forwarding loop over the client map. */
  lemma WatchersStep<M>(clients: map<string, Client>, todo: set<string>, id: string, device: Value,
                        out0: map<WsId, seq<M>>, cur: map<WsId, seq<M>>, m: M)
    requires DistinctSockets(clients) && todo <= clients.Keys && id in todo
    requires cur == Broadcast(out0, WatchersOf(clients, clients.Keys - todo, device), m)
    ensures (if clients[id].currentDevice == device then Send(cur, clients[id].ws, m) else cur)
      == Broadcast(out0, WatchersOf(clients, clients.Keys - (todo - {id}), device), m)
  {
    var done := clients.Keys - todo;
    assert clients.Keys - (todo - {id}) == done + {id};
    WatchersOfAdd(clients, done, id, device);
    if clients[id].currentDevice == device {
      BroadcastAdd(out0, WatchersOf(clients, done, device), clients[id].ws, m);
    }
  }

  /** The `webSocketClients.forEach` loop of `notifyDeviceListChanged`: `m` once to every
      client's WebSocket, in whatever order the map yields them. */
  method SendToClients<M>(clients: map<string, Client>, out: map<WsId, seq<M>>, m: M)
    returns (out': map<WsId, seq<M>>)
    requires DistinctSockets(clients)
    ensures out' == Broadcast(out, SocketsOf(clients, clients.Keys), m)
  {
    out' := out;
    var todo := clients.Keys;
    LoopStart(clients, out, Null, m);
    while todo != {}
      invariant todo <= clients.Keys
      invariant out' == Broadcast(out, SocketsOf(clients, clients.Keys - todo), m)
      decreases |todo|
    {
      var id :| id in todo;
      SocketsStep(clients, todo, id, out, out', m);
      out' := Send(out', clients[id].ws, m);
      todo := todo - {id};
    }
    assert clients.Keys - todo == clients.Keys;
  }

  /** The `webSocketClients.forEach` loop of the log branch of `handleMessage`: `m` once to the
      WebSocket of every client whose `currentDevice` is `device`. */
  method SendToWatchers<M>(clients: map<string, Client>, out: map<WsId, seq<M>>, device: Value, m: M)
    returns (out': map<WsId, seq<M>>)
    requires DistinctSockets(clients)
    ensures out' == Broadcast(out, WatchersOf(clients, clients.Keys, device), m)
  {
    out' := out;
    var todo := clients.Keys;
    LoopStart(clients, out, device, m);
    while todo != {}
      invariant todo <= clients.Keys
      invariant out' == Broadcast(out, WatchersOf(clients, clients.Keys - todo, device), m)
      decreases |todo|
    {
      var id :| id in todo;
      WatchersStep(clients, todo, id, device, out, out', m);
      out' := if clients[id].currentDevice == device then Send(out', clients[id].ws, m) else out';
      todo := todo - {id};
    }
    assert clients.Keys - todo == clients.Keys;
  }

  // ---------------------------------------------------------------------------------------
  // The device snapshot.

  /** `Array.from(devices.entries()).map(([id, device]) => ({ id, ...device.info }))`, keyed by
      id: the spread puts the info's own properties over `id`. */
  function Snapshot(devices: map<Value, Device>): map<Value, map<string, Value>>
  {
    map id | id in devices :: map["id" := id] + devices[id].info
  }

  /** Each snapshot entry is the device's info plus an `id` property, and that property names the
      device unless the info carries a different `id` of its own. */
  lemma SnapshotEntry(devices: map<Value, Device>, id: Value)
    requires id in devices
    ensures var e := Snapshot(devices)[id];
      && e.Keys == devices[id].info.Keys + {"id"}
      && (forall k :: k in devices[id].info ==> e[k] == devices[id].info[k])
      && (e["id"] == id <==> "id" !in devices[id].info || devices[id].info["id"] == id)
  {
  }

  /** `notifyDeviceListChanged`: the snapshot to every connected observer. */
  function Notify(h: Hub): Hub
  {
    h.(toObservers := Broadcast(h.toObservers, SocketsOf(h.clients, h.clients.Keys),
                                DeviceListUpdated(Snapshot(h.devices))))
  }

  // ---------------------------------------------------------------------------------------
  // Agent messages (`handleMessage`).

  /** The id a `device_info` registers under: `data.id || \`device-${Date.now()}\``. */
  function DeviceIdFor(data: map<string, Value>, now: nat): (id: Value)
    ensures Truthy(id)
  {
    var given := Get(data, "id");
    if Truthy(given) then given else Str("device-" + NatToString(now))
  }

  /** `device_info`: store (or overwrite) the entry and broadcast the snapshot. The new id is
      returned, and becomes the connection's `deviceId`. */
  function Register(h: Hub, socket: SocketId, data: map<string, Value>, now: nat): (Hub, Value)
  {
    var id := DeviceIdFor(data, now);
    (Notify(h.(devices := h.devices[id := Device(data, socket)])), id)
  }

  /** The coerced fields of a `log`; `nowIso` stands for `new Date().toISOString()`. */
  function LogFields(data: map<string, Value>, nowIso: string): LogData
  {
    LogData(StringOr(Get(data, "type"), "Log"), StringOr(Get(data, "message"), ""),
            StringOr(Get(data, "stackTrace"), ""), StringOr(Get(data, "timestamp"), nowIso))
  }

  /** `log`: forward to every observer whose selected device is this connection's `deviceId`. */
  function Forward(h: Hub, deviceId: Value, data: map<string, Value>, nowIso: string): Hub
  {
    h.(toObservers := Broadcast(h.toObservers, WatchersOf(h.clients, h.clients.Keys, deviceId),
                                LogLine(deviceId, LogFields(data, nowIso))))
  }

  /** One frame of a connection whose `deviceId` is `deviceId`; `None` is a frame `JSON.parse`
      rejected. A `device_info` without data throws at `message.data.id` and, like any
      other unknown message, changes nothing. */
  function HandleAgent(h: Hub, socket: SocketId, deviceId: Value, msg: Option<AgentMessage>,
                       now: nat, nowIso: string): (Hub, Value)
  {
    match msg
    case None => (h, deviceId)
    case Some(m) =>
      if m.kind == Str("device_info") then
        if m.data.None? then (h, deviceId) else Register(h, socket, m.data.value, now)
      else if m.kind == Str("log") then
        if m.data.None? then (h, deviceId) else (Forward(h, deviceId, m.data.value, nowIso), deviceId)
      else (h, deviceId)
  }

  /** The frames of one `data` event, handled in the order they were cut. */
  function HandleFrames(h: Hub, socket: SocketId, deviceId: Value, frames: seq<string>,
                        parse: string -> Option<AgentMessage>, now: nat, nowIso: string): (Hub, Value)
    decreases |frames|
  {
    if frames == [] then (h, deviceId)
    else
      var (h', id') := HandleAgent(h, socket, deviceId, parse(frames[0]), now, nowIso);
      HandleFrames(h', socket, id', frames[1..], parse, now, nowIso)
  }

  /** `close` and `error` on a TCP socket: a registered device is deleted and the snapshot
      broadcast; an unregistered connection changes nothing. */
  function DropDevice(h: Hub, deviceId: Value): Hub
  {
    if Truthy(deviceId) then Notify(h.(devices := h.devices - {deviceId})) else h
  }

  // ---------------------------------------------------------------------------------------
  // Observer events.

  /** A new WebSocket: registered under `Date.now().toString()` with no device selected. No
      device list is sent. */
  function Connect(h: Hub, ws: WsId, now: nat): Hub
  {
    h.(clients := h.clients[NatToString(now) := Client(ws, Null)])
  }

  /** A WebSocket `close`: its id leaves the client map. */
  function Disconnect(h: Hub, clientId: string): Hub
  {
    h.(clients := h.clients - {clientId})
  }

  /** `handleWebSocketMessage`; `None` is a message `JSON.parse` rejected. */
  function HandleObserver(h: Hub, clientId: string, msg: Option<ObserverMessage>): Hub
  {
    if msg.None? || clientId !in h.clients then h
    else
      var m, c := msg.value, h.clients[clientId];
      if m.kind == Str("select_device") then
        h.(clients := h.clients[clientId := c.(currentDevice := m.deviceId)])
      else if m.kind == Str("execute_code") && c.currentDevice in h.devices then
        h.(toAgents := Send(h.toAgents, h.devices[c.currentDevice].socket, ExecuteCode(m.code)))
      else h
  }

  // ---------------------------------------------------------------------------------------
  // What the handlers guarantee.

  /** `device_info` stores the entry under `data.id` when that is truthy (a fresh
      `device-<now>` otherwise), keeps every other device, and sends the new snapshot exactly
      once to every observer and nothing else to anybody. */
  lemma RegisterSpec(h: Hub, socket: SocketId, data: map<string, Value>, now: nat)
    ensures var (h', id) := Register(h, socket, data, now);
      && (Truthy(Get(data, "id")) ==> id == data["id"])
      && (!Truthy(Get(data, "id")) ==> id == Str("device-" + NatToString(now)))
      && h'.devices == h.devices[id := Device(data, socket)]
      && h'.clients == h.clients && h'.toAgents == h.toAgents
      && (forall c :: c in h.clients ==>
            Sent(h'.toObservers, h.clients[c].ws)
              == Sent(h.toObservers, h.clients[c].ws) + [DeviceListUpdated(Snapshot(h'.devices))])
      && (forall w :: w in h.toObservers && w !in SocketsOf(h.clients, h.clients.Keys) ==>
            h'.toObservers[w] == h.toObservers[w])
  {
    var (h', id) := Register(h, socket, data, now);
    forall c | c in h.clients
      ensures Sent(h'.toObservers, h.clients[c].ws)
              == Sent(h.toObservers, h.clients[c].ws) + [DeviceListUpdated(Snapshot(h'.devices))]
    {
      assert h.clients[c].ws in SocketsOf(h.clients, h.clients.Keys);
    }
  }

  /** A device registered with a falsy `id` of its own is listed under that falsy `id`, not
      under the key it is stored by; otherwise the listed `id` is the key. */
  lemma RegisteredListing(h: Hub, socket: SocketId, data: map<string, Value>, now: nat)
    ensures var (h', id) := Register(h, socket, data, now);
      && id in Snapshot(h'.devices)
      && (Snapshot(h'.devices)[id]["id"] == id <==> !("id" in data && !Truthy(data["id"])))
  {
    var (h', id) := Register(h, socket, data, now);
    SnapshotEntry(h'.devices, id);
    if "id" in data && !Truthy(data["id"]) {
      assert id == Str("device-" + NatToString(now));
      assert data["id"] != id;
    }
  }

  /** A `log` goes to exactly the observers whose `currentDevice` is the connection's
      `deviceId`, once each; the fields take the defaults `Log`, empty, empty and the current
      time when missing or falsy; nothing else changes. */
  lemma ForwardSpec(h: Hub, deviceId: Value, data: map<string, Value>, nowIso: string)
    requires DistinctSockets(h.clients)
    ensures var h' := Forward(h, deviceId, data, nowIso);
      var line := LogLine(deviceId, LogFields(data, nowIso));
      && h'.devices == h.devices && h'.clients == h.clients && h'.toAgents == h.toAgents
      && (forall c :: c in h.clients ==>
            && (h.clients[c].currentDevice == deviceId ==>
                  Sent(h'.toObservers, h.clients[c].ws) == Sent(h.toObservers, h.clients[c].ws) + [line])
            && (h.clients[c].currentDevice != deviceId ==>
                  Sent(h'.toObservers, h.clients[c].ws) == Sent(h.toObservers, h.clients[c].ws)))
      && (!Truthy(Get(data, "type")) ==> line.data.kind == "Log")
      && (!Truthy(Get(data, "message")) ==> line.data.message == "")
      && (!Truthy(Get(data, "stackTrace")) ==> line.data.stackTrace == "")
      && (!Truthy(Get(data, "timestamp")) ==> line.data.timestamp == nowIso)
  {
    var h' := Forward(h, deviceId, data, nowIso);
    var targets := WatchersOf(h.clients, h.clients.Keys, deviceId);
    forall c | c in h.clients
      ensures h.clients[c].currentDevice == deviceId <==> h.clients[c].ws in targets
    {
      if h.clients[c].ws in targets {
        var c' :| c' in h.clients && h.clients[c'].currentDevice == deviceId && h.clients[c'].ws == h.clients[c].ws;
        assert WsOf(h.clients, c') == WsOf(h.clients, c);
      }
    }
  }

  /** Closing a registered connection removes exactly its id and broadcasts the snapshot; an
      unregistered one changes nothing. */
  lemma DropSpec(h: Hub, deviceId: Value)
    ensures var h' := DropDevice(h, deviceId);
      && (Truthy(deviceId) ==>
            && deviceId !in h'.devices
            && (forall id :: id != deviceId ==> (id in h'.devices <==> id in h.devices))
            && (forall id :: id in h'.devices ==> h'.devices[id] == h.devices[id])
            && (forall c :: c in h.clients ==>
                  Sent(h'.toObservers, h.clients[c].ws)
                    == Sent(h.toObservers, h.clients[c].ws) + [DeviceListUpdated(Snapshot(h'.devices))]))
      && (!Truthy(deviceId) ==> h' == h)
  {
    var h' := DropDevice(h, deviceId);
    if Truthy(deviceId) {
      forall c | c in h.clients
        ensures Sent(h'.toObservers, h.clients[c].ws)
                == Sent(h.toObservers, h.clients[c].ws) + [DeviceListUpdated(Snapshot(h'.devices))]
      {
        assert h.clients[c].ws in SocketsOf(h.clients, h.clients.Keys);
      }
    }
  }

  /** `execute_code` ignores the `deviceId` in the message: only the client's stored selection
      counts. It writes exactly one line to that device's socket, or nothing if the selected
      device is not registered. */
  lemma ExecuteRouting(h: Hub, clientId: string, named: Value, code: Value)
    requires clientId in h.clients
    ensures var h' := HandleObserver(h, clientId, Some(ObserverMessage(Str("execute_code"), named, code)));
      var sel := h.clients[clientId].currentDevice;
      && h' == HandleObserver(h, clientId, Some(ObserverMessage(Str("execute_code"), Undefined, code)))
      && h'.devices == h.devices && h'.clients == h.clients && h'.toObservers == h.toObservers
      && (sel in h.devices ==>
            && Sent(h'.toAgents, h.devices[sel].socket) == Sent(h.toAgents, h.devices[sel].socket) + [ExecuteCode(code)]
            && (forall s :: s != h.devices[sel].socket ==> Sent(h'.toAgents, s) == Sent(h.toAgents, s)))
      && (sel !in h.devices ==> h' == h)
  {
  }

  /** `select_device` stores the message's `deviceId` as the client's selection, whether or not
      such a device is registered, touches no other client and sends nothing; a message from
      an unknown client, or one `JSON.parse` rejected, changes nothing. */
  lemma SelectSpec(h: Hub, clientId: string, msg: Option<ObserverMessage>)
    ensures msg.None? || clientId !in h.clients ==> HandleObserver(h, clientId, msg) == h
    ensures msg.Some? && clientId in h.clients && msg.value.kind == Str("select_device") ==>
      var h' := HandleObserver(h, clientId, msg);
      && h'.clients.Keys == h.clients.Keys
      && h'.clients[clientId] == Client(h.clients[clientId].ws, msg.value.deviceId)
      && (forall c :: c in h.clients && c != clientId ==> h'.clients[c] == h.clients[c])
      && h'.devices == h.devices && h'.toObservers == h.toObservers && h'.toAgents == h.toAgents
    ensures msg.Some? && msg.value.kind != Str("select_device") && msg.value.kind != Str("execute_code") ==>
      HandleObserver(h, clientId, msg) == h
  {
  }

  /** A closed observer leaves the client map and keeps its socket out of every later
      broadcast; nothing is sent and no other client changes. */
  lemma ObserverCloseSpec(h: Hub, clientId: string)
    requires DistinctSockets(h.clients)
    ensures var h' := Disconnect(h, clientId);
      && clientId !in h'.clients
      && (forall c :: c in h'.clients <==> c in h.clients && c != clientId)
      && (forall c :: c in h'.clients ==> h'.clients[c] == h.clients[c])
      && DistinctSockets(h'.clients)
      && (clientId in h.clients ==> h.clients[clientId].ws !in SocketsOf(h'.clients, h'.clients.Keys))
      && h'.devices == h.devices && h'.toObservers == h.toObservers && h'.toAgents == h.toAgents
  {
    var h' := Disconnect(h, clientId);
    DistinctRemove(h.clients, clientId);
    if clientId in h.clients {
      forall c | c in h'.clients
        ensures h'.clients[c].ws != h.clients[clientId].ws
      {
        assert WsOf(h.clients, c) != WsOf(h.clients, clientId);
      }
    }
  }

  /** A new observer is registered with no selection and is sent nothing; one connecting in the
      same millisecond as an earlier one takes over its id. */
  lemma ConnectSpec(h: Hub, ws: WsId, now: nat)
    requires DistinctSockets(h.clients) && ws !in SocketsOf(h.clients, h.clients.Keys)
    ensures var h' := Connect(h, ws, now);
      && h'.toObservers == h.toObservers && h'.devices == h.devices && h'.toAgents == h.toAgents
      && NatToString(now) in h'.clients && h'.clients[NatToString(now)] == Client(ws, Null)
      && DistinctSockets(h'.clients)
      && (NatToString(now) in h.clients ==> h.clients[NatToString(now)].ws !in SocketsOf(h'.clients, h'.clients.Keys))
  {
    var h' := Connect(h, ws, now);
    var id := NatToString(now);
    forall c | c in h.clients
      ensures h.clients[c].ws != ws
    {
      assert h.clients[c].ws in SocketsOf(h.clients, h.clients.Keys);
    }
    DistinctStore(h.clients, id, Client(ws, Null));
    if id in h.clients {
      var oldWs := h.clients[id].ws;
      forall c | c in h'.clients
        ensures h'.clients[c].ws != oldWs
      {
        if c != id {
          assert WsOf(h.clients, c) != WsOf(h.clients, id);
        }
      }
    }
  }

  /** A frame `JSON.parse` rejects is dropped, and the frames after it are handled as if it had
      never been there. */
  lemma UnparsedFrameDropped(h: Hub, socket: SocketId, deviceId: Value, before: seq<string>, bad: string,
                             after: seq<string>, parse: string -> Option<AgentMessage>, now: nat, nowIso: string)
    requires parse(bad).None?
    ensures HandleFrames(h, socket, deviceId, before + [bad] + after, parse, now, nowIso)
         == HandleFrames(h, socket, deviceId, before + after, parse, now, nowIso)
    decreases |before|
  {
    if before == [] {
      assert before + [bad] + after == [bad] + after;
      assert ([bad] + after)[0] == bad;
      assert ([bad] + after)[1..] == after;
      assert before + after == after;
    } else {
      var (h', id') := HandleAgent(h, socket, deviceId, parse(before[0]), now, nowIso);
      assert (before + [bad] + after)[1..] == before[1..] + [bad] + after;
      assert (before + after)[1..] == before[1..] + after;
      UnparsedFrameDropped(h', socket, id', before[1..], bad, after, parse, now, nowIso);
    }
  }

  // ---------------------------------------------------------------------------------------
  // The relay as the program runs it: objects updated in place.

  /** One TCP connection: the socket, the `deviceId` stored on it, and its framer. */
  class TcpConnection {
    const socket: SocketId
    var deviceId: Value
    const framer: StreamFramer

    constructor (socket: SocketId)
      ensures this.socket == socket && deviceId == Undefined
      ensures fresh(framer) && framer.Valid() && framer.buffer == [] && framer.messageDepth == 0
      ensures !framer.isInMessage
    {
      this.socket := socket;
      deviceId := Undefined;
      framer := new StreamFramer();
    }
  }

  /** The relay's maps and the traffic it has sent. */
  class RelayServer {
    var devices: map<Value, Device>
    var clients: map<string, Client>
    var toObservers: map<WsId, seq<ToObserver>>
    var toAgents: map<SocketId, seq<ToAgent>>

    function State(): Hub
      reads this
    {
      Hub(devices, clients, toObservers, toAgents)
    }

    ghost predicate Valid()
      reads this
    {
      DistinctSockets(clients)
    }

    constructor ()
      ensures Valid() && State() == Hub(map[], map[], map[], map[])
    {
      devices, clients, toObservers, toAgents := map[], map[], map[], map[];
    }

    /** `notifyDeviceListChanged`: one send per registered client. */
    method NotifyDeviceListChanged()
      requires Valid()
      modifies this
      ensures Valid() && State() == Notify(old(State()))
    {
      var msg := DeviceListUpdated(Snapshot(devices));
      toObservers := SendToClients(clients, toObservers, msg);
    }

    /** `handleMessage` for one parsed frame of `conn`. */
    method HandleMessage(conn: TcpConnection, msg: Option<AgentMessage>, now: nat, nowIso: string)
      requires Valid()
      modifies this, conn
      ensures Valid()
      ensures (State(), conn.deviceId) == HandleAgent(old(State()), conn.socket, old(conn.deviceId), msg, now, nowIso)
    {
      if msg.None? {
        return;
      }
      var m := msg.value;
      if m.kind == Str("device_info") {
        if m.data.None? {
          return;
        }
        var id := DeviceIdFor(m.data.value, now);
        devices := devices[id := Device(m.data.value, conn.socket)];
        conn.deviceId := id;
        NotifyDeviceListChanged();
      } else if m.kind == Str("log") {
        if m.data.None? {
          return;
        }
        ForwardLog(conn.deviceId, m.data.value, nowIso);
      }
    }

    /** The `log` case: one send per client whose selection is the connection's device. */
    method ForwardLog(deviceId: Value, data: map<string, Value>, nowIso: string)
      requires Valid()
      modifies this
      ensures Valid() && State() == Forward(old(State()), deviceId, data, nowIso)
    {
      var line := LogLine(deviceId, LogFields(data, nowIso));
      toObservers := SendToWatchers(clients, toObservers, deviceId, line);
    }

    /** A TCP `data` event: frame the chunk, then handle each frame in order. */
    method OnAgentData(conn: TcpConnection, chunk: string, parse: string -> Option<AgentMessage>,
                       now: nat, nowIso: string)
      requires Valid() && conn.framer.Valid()
      modifies this, conn, conn.framer
      ensures Valid() && conn.framer.Valid()
      ensures var e := Event(old(conn.framer.buffer), old(conn.framer.messageDepth), old(conn.framer.isInMessage), chunk);
        && conn.framer.buffer == e.buffer && conn.framer.messageDepth == e.depth
        && conn.framer.isInMessage == e.inMessage
        && (State(), conn.deviceId) == HandleFrames(old(State()), conn.socket, old(conn.deviceId), e.frames, parse, now, nowIso)
    {
      var frames := conn.framer.OnData(chunk);
      var k := 0;
      while k < |frames|
        invariant 0 <= k <= |frames| && Valid()
        invariant HandleFrames(State(), conn.socket, conn.deviceId, frames[k..], parse, now, nowIso)
               == HandleFrames(old(State()), conn.socket, old(conn.deviceId), frames, parse, now, nowIso)
        invariant conn.framer.buffer == Event(old(conn.framer.buffer), old(conn.framer.messageDepth), old(conn.framer.isInMessage), chunk).buffer
        invariant conn.framer.messageDepth == Event(old(conn.framer.buffer), old(conn.framer.messageDepth), old(conn.framer.isInMessage), chunk).depth
        invariant conn.framer.isInMessage == Event(old(conn.framer.buffer), old(conn.framer.messageDepth), old(conn.framer.isInMessage), chunk).inMessage
        invariant conn.framer.Valid()
        decreases |frames| - k
      {
        assert frames[k..][1..] == frames[k + 1..];
        HandleMessage(conn, parse(frames[k]), now, nowIso);
        k := k + 1;
      }
    }

    /** `close` or `error` on an agent's TCP socket. */
    method OnAgentClose(conn: TcpConnection)
      requires Valid()
      modifies this
      ensures Valid() && State() == DropDevice(old(State()), conn.deviceId)
    {
      if Truthy(conn.deviceId) {
        devices := devices - {conn.deviceId};
        NotifyDeviceListChanged();
      }
    }

    /** A WebSocket `connection`; returns the client id it was registered under. */
    method OnObserverConnect(ws: WsId, now: nat) returns (clientId: string)
      requires Valid() && ws !in SocketsOf(clients, clients.Keys)
      modifies this
      ensures Valid() && State() == Connect(old(State()), ws, now)
      ensures clientId == NatToString(now)
    {
      ConnectSpec(State(), ws, now);
      clientId := NatToString(now);
      clients := clients[clientId := Client(ws, Null)];
    }

    /** A WebSocket `close`. */
    method OnObserverClose(clientId: string)
      requires Valid()
      modifies this
      ensures Valid() && State() == Disconnect(old(State()), clientId)
    {
      DistinctRemove(clients, clientId);
      clients := clients - {clientId};
    }

    /** A WebSocket `message`, already parsed. */
    method OnObserverMessage(clientId: string, msg: Option<ObserverMessage>)
      requires Valid()
      modifies this
      ensures Valid() && State() == HandleObserver(old(State()), clientId, msg)
    {
      if msg.None? || clientId !in clients {
        return;
      }
      var m, c := msg.value, clients[clientId];
      if m.kind == Str("select_device") {
        forall x | x in clients && x != clientId
          ensures clients[x].ws != c.ws
        {
          assert WsOf(clients, x) != WsOf(clients, clientId);
        }
        DistinctStore(clients, clientId, c.(currentDevice := m.deviceId));
        clients := clients[clientId := c.(currentDevice := m.deviceId)];
      } else if m.kind == Str("execute_code") {
        if c.currentDevice in devices {
          var device := devices[c.currentDevice];
          toAgents := Send(toAgents, device.socket, ExecuteCode(m.code));
        }
      }
    }
  }
}
