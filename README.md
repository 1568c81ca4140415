# Unity remote debugger, modelled in Dafny

The system is a remote debugger for Unity games. It has three parts:

- The **agent** (`UnityRemoteLogger`) runs inside the game. It connects to a relay over TCP,
  announces the device, and forwards every log of the game with hand-escaped text. It reads
  newline-delimited commands back. For `execute_code` it compiles the snippet into a
  `RuntimeScript.Execute` method, caches the assembly by the hash of the snippet, and runs it on
  the main thread through `UnityMainThreadDispatcher`.
- The **relay** (`server.js`) cuts the agent's TCP byte stream into JSON objects by counting
  braces. It keeps a registry of devices and a map of WebSocket observers. It broadcasts a
  device snapshot after every registry change, forwards logs to the observers watching a
  device, and routes `execute_code` from an observer to that observer's selected device.
- The **editor window** (`DebugEditorWindow`) keeps a bounded list of logs. It filters the list
  by type toggles and a case-insensitive search, and runs snippets on the agent in the scene.

The project has seven modules, one per file:

- `Text` (`text.dfy`): the string operations the sources call: `Replace`, `ToLower`,
  `Contains`, `IndexOf`, `EndsWith`.
- `JsValues` (`js_values.dfy`): JavaScript primitives, truthiness and `String()`.
- `Framer` (`framer.dfy`): the relay's brace-depth framer.
  - `ScanFrom` and `Event` specify one `data` event.
  - The `StreamFramer` class runs the same loop in place, including its `i = -1` restart.
- `Relay` (`relay.dfy`): the relay's state.
  - The `Hub` value type and its pure steps are the specification.
  - The `RelayServer` and `TcpConnection` classes update the maps in place.
  - Each class method is proved equal to its step.
- `LogEscape` (`escaping.dfy`): the agent's five-step escaping chain.
- `Agent` (`agent.dfy`): the agent.
  - Compile, cache and execute is modelled over a `Host` of function values.
  - Connection flags and retry coroutines, line splitting and command dispatch are modelled.
  - Scene-object naming is modelled.
  - The `RemoteLogger` and `Dispatcher` classes are included.
- `Editor` (`editor.dfy`): the window's log list, filter, styles and execute flag, with the
  `DebugWindow` class.

Where the program updates state in place, the model is a class. Its methods are proved to
produce exactly the state given by a pure function of the old state, and the lemmas about those
functions carry the properties.

The classes model the code as written, including the three defects listed under "## Findings".
Each finding's corrected definition is modelled beside the as-written one and carries the
intended property.

## Model

| member | source | states |
|---|---|---|
| `Text.IndexOf` | Assets/Scripts/UnityRemoteLogger.cs:291 | the result is -1 exactly when the character is absent; otherwise it is its first offset |
| `Text.ContainsIffOccurs` | Assets/Editor/DebugEditorWindow.cs:364-365 | the left-to-right `Contains` search succeeds exactly when the needle occurs at some offset |
| `Text.LowerIdempotent` | Assets/Editor/DebugEditorWindow.cs:364-365 | lower-casing twice is lower-casing once |
| `Text.ReplaceByChar` | Assets/Scripts/UnityRemoteLogger.cs:115 | replacing a character by one character keeps the length and changes exactly the occurrences |
| `JsValues.StringOr` | unity-debugger/server.js:115-118 | `String(v \|\| fallback)` is the string of `v` when it is a truthy string, the fallback when `v` is falsy, and never empty when `v` is truthy |
| `Framer.ScanFrom` | unity-debugger/server.js:33-60 | the frames found before the scan are kept as its first frames; when the scan ends inside a message, the start index lies within the buffer left |
| `Framer.ScanSuffix` | unity-debugger/server.js:33-60 | the buffer left is a suffix of the scanned buffer; it is the whole buffer exactly when no frame was cut |
| `Framer.ScanClosed` | unity-debugger/server.js:41-58 | every frame cut ends with the `}` that closed it |
| `Framer.ScanOutside` | unity-debugger/server.js:33-60 | a scan that starts inside a message, or outside one with no positive depth and no `{` seen, ends inside a message or with no positive depth and no `{` left |
| `Framer.Event` | unity-debugger/server.js:27-76 | after an event the buffer is at most 1000000 characters and is a suffix of the old buffer plus the chunk |
| `Framer.OverflowResets` | unity-debugger/server.js:62-68 | an event cuts the frames of the rescan; a buffer left over 1000000 characters is cleared with depth 0 and no message open; otherwise the scan state is kept |
| `Framer.StreamFramer.constructor` | unity-debugger/server.js:21-23 | a connection starts with an empty buffer, depth 0 and no message open |
| `Framer.StreamFramer.OnData` | unity-debugger/server.js:27-76 | the loop, restarting at `i = -1` after each cut, yields exactly `Event`'s frames, buffer, depth and flag |
| `Framer.StrayCloses` | unity-debugger/server.js:41-44 | outside a message, `}` only lowers the depth: no frame is cut and the buffer is kept |
| `Framer.StepOpen` | unity-debugger/server.js:34-39 | `{` raises the depth and opens a message at this offset unless one is open |
| `Framer.StepEmit` | unity-debugger/server.js:41-58 | a `}` that brings an open message to depth 0 cuts the text from the start offset to it, and scanning restarts after it |
| `Framer.StepClose` | unity-debugger/server.js:41-44 | any other `}` only lowers the depth |
| `Framer.FramesDelimited` | unity-debugger/server.js:33-60 | the buffer is the frames cut, each preceded by the skipped text before it, followed by the buffer left |
| `Framer.BalancedFrame` | unity-debugger/server.js:33-60 | a frame preceded by text without `}` has balanced braces |
| `Framer.PrefixOpen` | unity-debugger/server.js:33-60 | every proper prefix of such a frame has positive depth, so the frame is the shortest balanced run from its `{` |
| `Framer.WholeMessage` | unity-debugger/server.js:27-60 | a message received in one chunk is cut |
| `Framer.SplitMessageLost` | unity-debugger/server.js:31-60 | as written, `{` and `}` in two chunks are never cut, although `{}` in one chunk is |
| `Framer.FirstHalf` | unity-debugger/server.js:31-40 | after the chunk `{` the buffer is `{`, at depth 1, with a message open |
| `Framer.SecondHalf` | unity-debugger/server.js:31-60 | rescanning `{}` from depth 1 with the message open cuts nothing |
| `Framer.FeedResumable` | unity-debugger/server.js:27-76 | corrected event, scanning only the new text: buffer at most 1000000, earlier frames kept |
| `Framer.ChunkingInvariant` | unity-debugger/server.js:27-76 | for the corrected event, feeding `a` then `b` is the same as feeding `a + b` |
| `Framer.SplitMessageKept` | unity-debugger/server.js:27-76 | for the corrected event, `{` then `}` cuts `{}` |
| `Relay.SnapshotEntry` | unity-debugger/server.js:196-200 | a snapshot entry has the info's keys plus `id`, with the info's values; its `id` names the device unless the info carries another `id` |
| `Relay.DeviceIdFor` | unity-debugger/server.js:100 | the id a device registers under is always truthy |
| `Relay.RegisterSpec` | unity-debugger/server.js:99-108 | `device_info` stores the entry under a truthy `data.id` or under `device-<now>`, keeps other devices, sends the new snapshot once to every observer and nothing else |
| `Relay.RegisteredListing` | unity-debugger/server.js:99-106 | the new device is listed, and its listed `id` is its key unless `data.id` is present and falsy |
| `Relay.ForwardSpec` | unity-debugger/server.js:110-135 | a log goes once to exactly the observers whose selection is the connection's device id; missing fields default to `Log`, empty text and the current time |
| `Relay.DropSpec` | unity-debugger/server.js:78-92 | `close` or `error` of a registered agent deletes only its device and sends every observer the new snapshot; an unregistered connection changes nothing |
| `Relay.ExecuteRouting` | unity-debugger/server.js:183-192 | `execute_code` ignores the message's `deviceId` and writes exactly one line to the selected device's socket, or nothing when that device is not registered |
| `Relay.SelectSpec` | unity-debugger/server.js:173-181 | `select_device` sets only that client's selection; unknown clients, unparsed messages and other types change nothing |
| `Relay.ObserverCloseSpec` | unity-debugger/server.js:167-170 | a closed observer leaves the client map, so later broadcasts skip its socket; nothing else changes |
| `Relay.ConnectSpec` | unity-debugger/server.js:153-156 | a new observer is stored under `Date.now()` with selection `null` and is sent nothing; an observer connecting in the same millisecond replaces the earlier one |
| `Relay.UnparsedFrameDropped` | unity-debugger/server.js:46-52 | a frame `JSON.parse` rejects is skipped and the later frames are handled as if it were absent |
| `Relay.TcpConnection.constructor` | unity-debugger/server.js:19-23 | a connection starts unregistered with a fresh empty framer |
| `Relay.RelayServer.constructor` | unity-debugger/server.js:15-16 | both maps start empty |
| `Relay.SendToClients` | unity-debugger/server.js:202-211 | the loop over the client map sends the message once to every client's WebSocket |
| `Relay.SendToWatchers` | unity-debugger/server.js:121-133 | the loop over the client map sends the message once to the WebSocket of every client whose selection is the device, and to no other |
| `Relay.RelayServer.NotifyDeviceListChanged` | unity-debugger/server.js:196-212 | the observers' transcripts become `Notify` of the old state: the snapshot (its entries, keyed by device id), once per observer |
| `Relay.RelayServer.HandleMessage` | unity-debugger/server.js:95-140 | the registry, transcripts and connection id become `HandleAgent` of the old state |
| `Relay.RelayServer.ForwardLog` | unity-debugger/server.js:110-135 | the observers' transcripts become `Forward` of the old state: the log, once per watching observer |
| `Relay.RelayServer.OnAgentData` | unity-debugger/server.js:27-76 | the framer's state becomes `Event`'s, and the frames are handled in order |
| `Relay.RelayServer.OnAgentClose` | unity-debugger/server.js:78-84 | the state becomes `DropDevice` of the connection's id |
| `Relay.RelayServer.OnObserverConnect` | unity-debugger/server.js:153-156 | the client map gains the new observer under `Date.now()` |
| `Relay.RelayServer.OnObserverClose` | unity-debugger/server.js:167-170 | the client map loses the observer |
| `Relay.RelayServer.OnObserverMessage` | unity-debugger/server.js:173-194 | the state becomes `HandleObserver` of the old state |
| `LogEscape.EscapeChar` | Assets/Scripts/UnityRemoteLogger.cs:167-171 | a special character becomes a backslash pair; any other character is kept |
| `LogEscape.EscapeIsPerChar` | Assets/Scripts/UnityRemoteLogger.cs:167-171 | because backslashes are replaced first, the chain equals escaping each character once |
| `LogEscape.UnescapeEscape` | Assets/Scripts/UnityRemoteLogger.cs:167-171 | an escape-aware reader gets the original text back |
| `LogEscape.NoRawControls` | Assets/Scripts/UnityRemoteLogger.cs:167-171 | escaped text has no raw line feed, carriage return or tab |
| `LogEscape.EscapeUnchanged` | Assets/Scripts/UnityRemoteLogger.cs:167-179 | text is left as it is exactly when it has none of the five special characters |
| `Agent.WrapVerbatim` | Assets/Scripts/UnityRemoteLogger.cs:450-472 | the snippet appears verbatim between the fixed `RuntimeScript` prefix and the `catch` suffix |
| `Agent.WrapInjective` | Assets/Scripts/UnityRemoteLogger.cs:450-472 | different snippets give different compilation units |
| `Agent.EmptyCodeSkipped` | Assets/Scripts/UnityRemoteLogger.cs:358-362 | a null or empty snippet, and only such a snippet, returns before touching the cache or the compiler |
| `Agent.CacheBehaviour` | Assets/Scripts/UnityRemoteLogger.cs:366-381 | a cached hash runs without compiling; an uncached one is compiled once from the wrapped source and cached only on success |
| `Agent.CacheGrows` | Assets/Scripts/UnityRemoteLogger.cs:366-381 | no entry is ever removed or replaced; only a successful compile of the snippet's own hash adds one |
| `Agent.CompiledOncePerHash` | Assets/Scripts/UnityRemoteLogger.cs:366-381 | over any run of executions each hash compiles successfully at most once, never when it was cached, and stays cached |
| `Agent.FailureRecompiled` | Assets/Scripts/UnityRemoteLogger.cs:368-380 | a snippet that fails to compile is compiled again when sent again, and the cache is unchanged |
| `Agent.Terminated` | Assets/Scripts/UnityRemoteLogger.cs:257-260 | the message sent ends in a line feed, starts with the message and is at most one character longer |
| `Agent.TerminatedIdempotent` | Assets/Scripts/UnityRemoteLogger.cs:257-260 | a message already ending in a line feed is sent as it is |
| `Agent.ConnectSpec` | Assets/Scripts/UnityRemoteLogger.cs:203-239 | connecting while connected or reconnecting does nothing; success sends the device info once, and a failed write of it disconnects and starts a retry; failure clears both flags and starts a retry |
| `Agent.HeartbeatSpec` | Assets/Scripts/UnityRemoteLogger.cs:150-160 | a beat writes the device info once while connected and nothing otherwise |
| `Agent.SendSpec` | Assets/Scripts/UnityRemoteLogger.cs:250-270 | sending writes only while connected, with exactly one trailing line feed; a failed write disconnects |
| `Agent.NeverReconnectingBetween` | Assets/Scripts/UnityRemoteLogger.cs:203-248 | `isReconnecting` is never left set by any operation |
| `Agent.FailedRound` | Assets/Scripts/UnityRemoteLogger.cs:241-248 | failed wakes leave the agent disconnected with at least one retry coroutine |
| `Agent.RetryLoopsGrow` | Assets/Scripts/UnityRemoteLogger.cs:232-248 | as written, each failed wake adds one retry coroutine |
| `Agent.RetryLoopsDouble` | Assets/Scripts/UnityRemoteLogger.cs:232-248 | as written, a round in which n coroutines fail leaves 2n |
| `Agent.ConnectSingle` | Assets/Scripts/UnityRemoteLogger.cs:203-239 | corrected connect: a failure starts a coroutine only when none runs, so at most one exists |
| `Agent.DisconnectSingle` | Assets/Scripts/UnityRemoteLogger.cs:491-517 | corrected disconnect keeps at most one coroutine |
| `Agent.SendSingle` | Assets/Scripts/UnityRemoteLogger.cs:250-270 | corrected send keeps at most one coroutine |
| `Agent.SingleRetryLoop` | Assets/Scripts/UnityRemoteLogger.cs:232-248 | with the corrected rule there is never more than one retry coroutine, and a failed wake keeps the one there is |
| `Agent.ReadErrorStrands` | Assets/Scripts/UnityRemoteLogger.cs:491-517 | as written, a read error leaves the agent disconnected with one retry coroutine fewer than a main-thread disconnect would start, and later sends and heartbeats change nothing |
| `Agent.ReadErrorRetried` | Assets/Scripts/UnityRemoteLogger.cs:491-517 | corrected, with the disconnect run on the main thread and the single-coroutine rule, a read error leaves exactly one retry loop running |
| `Agent.SplitLines` | Assets/Scripts/UnityRemoteLogger.cs:290-296 | the cut lines contain no line feed, nor does the rest, and the lines each followed by a line feed, then the rest, rebuild the buffer |
| `Agent.SplitLinesUnique` | Assets/Scripts/UnityRemoteLogger.cs:290-296 | that cut is the only one with those properties |
| `Agent.SplitLinesAppend` | Assets/Scripts/UnityRemoteLogger.cs:283-296 | splitting more text continues from the rest, so reads may be chunked anywhere |
| `Agent.SafeName` | Assets/Scripts/UnityRemoteLogger.cs:115 | same length; spaces and hyphens become underscores and every other character is kept |
| `Agent.SafeNameCollides` | Assets/Scripts/UnityRemoteLogger.cs:115 | names that differ only in spaces and hyphens get the same key |
| `Agent.RefreshedLast` | Assets/Scripts/UnityRemoteLogger.cs:109-120 | a key holds the last named object with that safe name |
| `Agent.RefreshedUntouched` | Assets/Scripts/UnityRemoteLogger.cs:109-120 | keys no named object maps to keep their entries, and no other key appears |
| `Agent.DrainFifo` | Assets/Scripts/UnityRemoteLogger.cs:597-614 | `Update` first runs everything queued when it starts, in order, then what arrives meanwhile, in enqueue order |
| `Agent.DrainComplete` | Assets/Scripts/UnityRemoteLogger.cs:597-614 | when something arrives while every action runs, `Update` runs all of it |
| `Agent.DrainRunsArrivals` | Assets/Scripts/UnityRemoteLogger.cs:597-614 | for any arrivals, `Update` runs the initial queue followed by every batch enqueued while one of its actions ran, and stops only when the queue has run dry |
| `Agent.ProcessCommand` | Assets/Scripts/UnityRemoteLogger.cs:310-334 | an `execute_code` command with a `data` object queues one action with its code; anything else queues nothing |
| `Agent.DispatchLines` | Assets/Scripts/UnityRemoteLogger.cs:290-296 | the loop cuts the buffer into lines without line feeds plus a rest without one, and queues each line's actions in order |
| `Agent.ReadLoop` | Assets/Scripts/UnityRemoteLogger.cs:277-298 | over any chunking of the reads, the lines dispatched and the text left are `SplitLines` of the whole text |
| `Agent.Dispatcher.constructor` | Assets/Scripts/UnityRemoteLogger.cs:538 | the queue starts empty |
| `Agent.Dispatcher.Enqueue` | Assets/Scripts/UnityRemoteLogger.cs:589-595 | the action is appended |
| `Agent.Dispatcher.Update` | Assets/Scripts/UnityRemoteLogger.cs:597-614 | the actions run are `Drain` of the queue, the queue ends empty, and each outcome and the final cache are those of running the snippets in order |
| `Agent.RemoteLogger.constructor` | Assets/Scripts/UnityRemoteLogger.cs:17-42 | the agent starts disconnected, with no retry coroutine and empty cache and context |
| `Agent.RemoteLogger.DisconnectFromServer` | Assets/Scripts/UnityRemoteLogger.cs:491-517 | the state becomes `Disconnect` of the old one |
| `Agent.RemoteLogger.SendMessage` | Assets/Scripts/UnityRemoteLogger.cs:250-270 | the state becomes `Send` of the old one |
| `Agent.RemoteLogger.ConnectToServer` | Assets/Scripts/UnityRemoteLogger.cs:203-239 | the state becomes `Connect` of the old one |
| `Agent.RemoteLogger.RetryWake` | Assets/Scripts/UnityRemoteLogger.cs:241-248 | the state becomes `Wake` of the old one |
| `Agent.RemoteLogger.HeartbeatBeat` | Assets/Scripts/UnityRemoteLogger.cs:150-160 | the state becomes `Heartbeat` of the old one |
| `Agent.RemoteLogger.HandleLog` | Assets/Scripts/UnityRemoteLogger.cs:162-201 | sends the serialized record of the escaped message and the stack trace (escaped only when non-empty), with a line feed appended |
| `Agent.RemoteLogger.ExecuteCodeLocally` | Assets/Scripts/UnityRemoteLogger.cs:356-412 | the outcome and the new cache are `Execute` of the old cache |
| `Agent.RemoteLogger.ReceiveData` | Assets/Scripts/UnityRemoteLogger.cs:272-307 | the commands are `SplitLines` of all text read, queued in order; a read error clears `isConnected` and starts no retry coroutine, because the thread aborts itself in `DisconnectFromServer` (lines 507-511) before line 515 |
| `Agent.RemoteLogger.RefreshSceneObjects` | Assets/Scripts/UnityRemoteLogger.cs:109-120 | the context becomes `Refreshed` of the old context and the objects in order |
| `Editor.AppendedSpec` | Assets/Editor/DebugEditorWindow.cs:164-175 | the new entry is last; the entries before it are the newest of the old list in order; the oldest is dropped only when there are more than 1000 |
| `Editor.AppendedBounded` | Assets/Editor/DebugEditorWindow.cs:164-175 | the list never exceeds 1001 entries |
| `Editor.KeepsNewest` | Assets/Editor/DebugEditorWindow.cs:164-175 | after any run of logs the list is the newest `min(n, 1001)` entries of all received, in arrival order |
| `Editor.TypeGate` | Assets/Editor/DebugEditorWindow.cs:340-368 | a log whose type is toggled off is hidden; `Assert` passes the type check; with an empty filter the toggles alone decide |
| `Editor.FilterMatch` | Assets/Editor/DebugEditorWindow.cs:362-366 | with a filter, a log is shown exactly when its type is on and the lower-cased filter occurs in the lower-cased message, or in a non-null stack trace while stack traces are shown |
| `Editor.FilterIgnoresCase` | Assets/Editor/DebugEditorWindow.cs:364-365 | lower-casing the message or the filter first changes nothing |
| `Editor.GetLogStyle` | Assets/Editor/DebugEditorWindow.cs:371-384 | the plain log style is chosen exactly for types other than Warning, Error and Exception |
| `Editor.StylesDistinct` | Assets/Editor/DebugEditorWindow.cs:371-384 | Warning, Error and Exception each have a style of their own |
| `Editor.RowsSpec` | Assets/Editor/DebugEditorWindow.cs:254-277 | every drawn row is a visible log of the list in its style, and every visible log is drawn; a trace line only while traces are shown |
| `Editor.DebugWindow.constructor` | Assets/Editor/DebugEditorWindow.cs:10-28 | the window starts with no logs, all four toggles on, stack traces shown and an empty filter |
| `Editor.DebugWindow.HandleLog` | Assets/Editor/DebugEditorWindow.cs:162-175 | the list becomes `Appended` of the old list and stays within 1001 |
| `Editor.DebugWindow.Clear` | Assets/Editor/DebugEditorWindow.cs:203-206 | the list is empty |
| `Editor.DebugWindow.SetFilters` | Assets/Editor/DebugEditorWindow.cs:210-227 | the toggles, the stack trace and auto-scroll flags and the filter take the values given; the logs, the logger and the snippet text are untouched |
| `Editor.DebugWindow.DrawLogView` | Assets/Editor/DebugEditorWindow.cs:250-280 | the loop draws exactly `Rows` of the current list and settings |
| `Editor.DebugWindow.HandleLogs` | Assets/Editor/DebugEditorWindow.cs:162-175 | the log records the window's callback receives are appended one by one: the list becomes `AppendedAll` of the old list, and nothing else changes |
| `Editor.DebugWindow.TryGenerateLogger` | Assets/Editor/DebugEditorWindow.cs:118-132 | a known logger is kept; in play mode the scene's logger, or a new one, disconnected and with an empty cache and context, is taken; outside play mode none; the list, the settings and the snippet text are untouched |
| `Editor.DebugWindow.ExecuteCode` | Assets/Editor/DebugEditorWindow.cs:314-334 | the snippet runs through the agent's `Execute` on the cache of the logger it uses (the known one, the scene's, or a new one's empty cache), giving the outcome and the logger's new cache; `isExecuting` is false afterwards; outside play mode with no logger nothing runs; the logs raised meanwhile are appended to the list; the settings, the snippet text, the logger's connection and context, and a scene logger it does not use are untouched |

## Left out

- Sockets, threads and the HTTP and WebSocket servers are left out. Of `Thread.Abort`, only its
  effect on the receive thread's own disconnect is modelled (`Agent.ReceiveFailure`). Socket
  outcomes are passed in as booleans: whether the connect completes in 5 seconds, and whether a
  write succeeds. What the relay sends is recorded per destination.
- `JSON.parse`, `JSON.stringify` and `JsonConvert` are parameters. So `JsonConvert` escaping the
  already hand-escaped text a second time is not modelled.
- Byte-to-text decoding is not modelled: a UTF-8 character split across two reads or chunks.
  Chunks are given as strings.
- `Framer.OverflowResets`: the 1000000 bound of `buffer.length` counts UTF-16 code units; the
  model counts characters, so with characters outside the Basic Multilingual Plane the relay
  clears its buffer earlier than `Framer.Event` and `Framer.StreamFramer.OnData` do.
- The outer `catch` of the `data` handler (server.js:70-75), which clears the buffer and the
  scan state, is not modelled: with `JSON.parse` and `handleMessage` errors caught inside, no
  statement of the scan can throw.
- Numbers are modelled as integers, and `===` and Map keys as value equality. NaN, `-0` and
  floating-point ids are not modelled.
- A `device_info` whose `data` is not an object is not modelled.
- Values are JavaScript primitives only: objects and arrays are not represented. So a nested
  value inside the device info, and a log field holding an object or an array (which `String()`
  turns into `[object Object]` or a comma-joined list), are not modelled.
- `Relay.ForwardSpec`: a `log` frame whose `data` is a truthy non-object (a string, a number,
  `true`) is forwarded by the relay with every field defaulted; the model has only object
  `data` and does not cover that frame.
- The order in which `Map` iteration sends to observers is not modelled. Each observer's own
  sequence of messages is modelled exactly.
- `Relay.Snapshot`: the device list the relay sends is an array in the registry's insertion
  order (registration order, with a re-registered id keeping its first place). The model's list
  is a map keyed by device id, so the order of the entries is not modelled; the entries
  themselves are. This also holds for `Relay.RelayServer.NotifyDeviceListChanged`.
- Lower-casing covers ASCII letters only. The runtime's `ToLower` is culture-aware.
- The SHA-256 hash, the C# compiler, `GetType`, `GetMethod` and `Invoke` are left abstract,
  passed in as the functions of `Agent.Host`. What a snippet does to the runtime context is not
  modelled.
- Concurrency between the receive thread and the main thread, and the locks, are not modelled.
  The actions other threads enqueue during `Update` are a parameter of `Dispatcher.Update`.
- The agent's own `Debug.Log` calls re-enter the agent's `HandleLog`. That re-entry is not
  modelled.
- `Editor.DebugWindow.ExecuteCode`: the log records the window's own callback receives while it
  runs (its "not found" error, the agent's logs while compiling and running) are a parameter;
  the model does not derive their text, and appends them after the call.
- Timestamps, `Date.now()`, `new Date().toISOString()` and `DateTime.Now` are parameters.
- Some lifecycle code is not modelled:
  - the engine entries `InitializeRuntimeContext` stores;
  - `Awake`, `Start`, `OnDestroy`, `OnApplicationPause`, `OnApplicationQuit`;
  - the unused `messageQueue` and `MAX_QUEUE_SIZE`.
- The model assumes that the dispatcher created before the first scene loads (`Initialize`,
  UnityRemoteLogger.cs:540-549) is still alive when a command arrives, and the null branch of
  `ExecuteOnMainThread` is not modelled. If that dispatcher were gone, `Instance()` would run
  `GameObject.Find` and `new GameObject` on the receive thread. Those calls throw off the main
  thread, and `ExecuteOnMainThread`'s `catch` would log the error and drop the command. That
  loss is not modelled.
- `ProcessCommand` reads no field of the agent, so it is modelled as a module-level method on the
  dispatcher.
- `Agent.DispatchLines`: the inner cutting loop is a method of its own, and so is the outer read
  loop, `Agent.ReadLoop`. Its contract states the cut's properties; by `Agent.SplitLinesUnique`
  they determine `SplitLines` of its buffer.
- The editor's GUI is not modelled: layout, scrolling, repaint, the example snippets, the Load
  button and the disabled state of the Execute button.
- `ExecuteCode`'s `#if !RELEASE` switch is not modelled; the call is always compiled in.
- `Relay.RelayServer.OnObserverConnect` requires that the WebSocket is not already registered.
  Every connection event brings a new WebSocket object.
- The GET `/api/devices` endpoint is not modelled. It returns the same entries as
  `notifyDeviceListChanged`, modelled, without their order, by `Relay.Snapshot`.
- The browser view `public/app.js` is not modelled.
- A new observer is sent nothing on connect; the device list reaches it only with the next
  registry change (`Relay.ConnectSpec`).

## Findings

| source | as written | input that shows it | evidently intended | confidence | as-written member | corrected member |
|---|---|---|---|---|---|---|
| unity-debugger/server.js:31-60 | each `data` event rescans the whole buffer from offset 0 but keeps the depth and the open flag from the last event, so the opening braces of a message split across chunks are counted twice | the chunk `{` then the chunk `}`: the second event ends at depth 1 and never cuts `{}`, though `{}` in one chunk is cut | resume scanning where the last event stopped, so chunking does not matter | not executed | `Framer.SplitMessageLost` | `Framer.ChunkingInvariant` |
| Assets/Scripts/UnityRemoteLogger.cs:232-248 | a failed connect always starts a new `RetryConnection` coroutine, even when a retry coroutine made the attempt and goes on looping | the server is down and one coroutine is running: each round of failed wakes doubles the coroutines (1, 2, 4, ...) | start a retry coroutine only when none is running, keeping one retry loop | not executed | `Agent.RetryLoopsDouble` | `Agent.SingleRetryLoop` |
| Assets/Scripts/UnityRemoteLogger.cs:300-305 | a read error calls `DisconnectFromServer` on the receive thread, which is `receiveThread` itself, so `receiveThread.Abort()` (line 509) ends it before `StartCoroutine(RetryConnection())` (line 515) | a read throws while the agent is connected (the connection is reset): `isConnected` is cleared and no retry coroutine starts, so nothing reconnects until a resume from pause | hand the disconnect to the main thread, where it starts a retry coroutine | not executed | `Agent.ReadErrorStrands` | `Agent.ReadErrorRetried` |
