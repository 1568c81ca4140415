/** The in-game agent (Assets/Scripts/UnityRemoteLogger.cs): it connects to the relay, forwards
    the game's logs, splits the relay's newline-delimited commands, and compiles, caches and
    runs the C# snippets it is sent on the main thread through `UnityMainThreadDispatcher`.

    The compiler, the reflection calls, the hash and the JSON codec are outside the model: they
    are passed in as functions (`Host`, `parse`, `serialize`). Socket outcomes (does the connect
    succeed, does a write succeed) are passed in as booleans. */
module Agent {

  import opened Text
  import opened JsValues
  import opened LogEscape

  // ---------------------------------------------------------------------------------------
  // The source template `CompileCode` wraps a snippet in.

  /** Everything before the snippet, from the opening line break of the verbatim string to the
      indentation inside `try {`. */
  const WrapPrefix: string :=
    "\nusing UnityEngine;\nusing System;\nusing System.Collections;\nusing System.Collections.Generic;\n"
    + "using System.Linq;\nusing UnityEngine.SceneManagement;\n\npublic class RuntimeScript\n{\n"
    + "    public static object Execute(Dictionary<string, object> context)\n    {\n        try\n"
    + "        {\n            "

  /** Everything after the snippet: the `catch` that logs a runtime error and returns null. */
  const WrapSuffix: string :=
    "\n        }\n        catch (Exception e)\n        {\n"
    + "            Debug.LogError($\"Runtime error: {e.Message}\");\n            return null;\n"
    + "        }\n    }\n}"

  /** The compilation unit handed to the compiler. */
  function Wrap(code: string): string
  {
    WrapPrefix + code + WrapSuffix
  }

  /** The snippet appears verbatim between the fixed prefix and suffix. */
  lemma WrapVerbatim(code: string)
    ensures var w := Wrap(code);
      && |w| == |WrapPrefix| + |code| + |WrapSuffix|
      && w[..|WrapPrefix|] == WrapPrefix
      && w[|WrapPrefix|..|WrapPrefix| + |code|] == code
      && w[|WrapPrefix| + |code|..] == WrapSuffix
  {
  }

  /** Different snippets give different compilation units. */
  lemma WrapInjective(a: string, b: string)
    ensures Wrap(a) == Wrap(b) <==> a == b
  {
    if Wrap(a) == Wrap(b) {
      WrapVerbatim(a);
      WrapVerbatim(b);
      assert |a| == |b|;
    }
  }

  // ---------------------------------------------------------------------------------------
  // Compile, cache, execute.

  /** An assembly the compiler produced. */
  type Assembly = nat

  /** What `GetMethod("Execute")` finds: nothing, several overloads (it throws), or one. */
  datatype Lookup = Missing | Ambiguous | Found

  /** What `Invoke` does: return a value (`None` is `null`) or throw. */
  datatype Invocation = Returned(value: Option<string>) | Threw

  /** The runtime services the agent calls: the SHA-256/Base64 hash of the snippet, the
      compiler, and the reflection steps on a compiled assembly. */
  datatype Host = Host(
    hash: string -> string,
    compile: string -> Option<Assembly>,
    hasScriptType: Assembly -> bool,
    executeMethod: Assembly -> Lookup,
    invoke: Assembly -> Invocation)

  /** How `ExecuteCodeLocally` ends. Every outcome but `Result` returns `null`. */
  datatype Outcome = EmptyCode | CompileFailed | NoScriptType | NoExecuteMethod | Result(value: Option<string>) | Faulted

  /** One call to the compiler: the hash it was for, the source, and whether it succeeded. */
  datatype Compilation = Compilation(key: string, source: string, ok: bool)

  /** The outcome of one execution, the cache after it and the compiler calls it made. */
  datatype Run = Run(outcome: Outcome, cache: map<string, Assembly>, compiled: seq<Compilation>)

  /** The reflection steps after an assembly is at hand. */
  function Invoke(host: Host, a: Assembly): Outcome
  {
    if !host.hasScriptType(a) then NoScriptType
    else match host.executeMethod(a)
      case Missing => NoExecuteMethod
      case Ambiguous => Faulted
      case Found =>
        match host.invoke(a)
        case Returned(v) => Result(v)
        case Threw => Faulted
  }

  /** `ExecuteCodeLocally(code)`; `None` is a null snippet. */
  function Execute(host: Host, cache: map<string, Assembly>, code: Option<string>): Run
  {
    if code.None? || code.value == "" then Run(EmptyCode, cache, [])
    else
      var key := host.hash(code.value);
      if key in cache then Run(Invoke(host, cache[key]), cache, [])
      else
        var source := Wrap(code.value);
        match host.compile(source)
        case None => Run(CompileFailed, cache, [Compilation(key, source, false)])
        case Some(a) => Run(Invoke(host, a), cache[key := a], [Compilation(key, source, true)])
  }

  /** A null or empty snippet returns null before the cache or the compiler is touched, and
      it is the only input that ends that way. */
  lemma EmptyCodeSkipped(host: Host, cache: map<string, Assembly>, code: Option<string>)
    ensures var r := Execute(host, cache, code);
      && (r.outcome == EmptyCode <==> code.None? || code.value == "")
      && (r.outcome == EmptyCode ==> r.cache == cache && r.compiled == [])
  {
  }

  /** A snippet whose hash is cached runs the cached assembly without compiling; one whose hash
      is not cached is compiled exactly once, from its wrapped source, and cached only when
      compilation succeeds. */
  lemma CacheBehaviour(host: Host, cache: map<string, Assembly>, code: string)
    requires code != ""
    ensures var r := Execute(host, cache, Some(code));
      var key := host.hash(code);
      && (key in cache ==> r.compiled == [] && r.cache == cache && r.outcome == Invoke(host, cache[key]))
      && (key !in cache ==>
            && r.compiled == [Compilation(key, Wrap(code), host.compile(Wrap(code)).Some?)]
            && (host.compile(Wrap(code)).None? ==> r.cache == cache && r.outcome == CompileFailed)
            && (host.compile(Wrap(code)).Some? ==>
                  r.cache == cache[key := host.compile(Wrap(code)).value]
                  && r.outcome == Invoke(host, host.compile(Wrap(code)).value)))
  {
  }

  /** Entries are never removed or replaced; at most the snippet's own hash is added, and only
      by a successful compilation. */
  lemma CacheGrows(host: Host, cache: map<string, Assembly>, code: Option<string>)
    ensures var r := Execute(host, cache, code);
      && (forall k :: k in cache ==> k in r.cache && r.cache[k] == cache[k])
      && (forall k :: k in r.cache && k !in cache ==>
            code.Some? && k == host.hash(code.value) && |r.compiled| == 1 && r.compiled[0].ok)
      && |r.compiled| <= 1
      && (|r.compiled| == 1 ==>
            r.compiled[0].key !in cache && (r.compiled[0].ok <==> r.compiled[0].key in r.cache))
  {
  }

  /** A sequence of executions: the cache after them, their outcomes, and all compiler calls. */
  datatype Batch = Batch(cache: map<string, Assembly>, outcomes: seq<Outcome>, compiled: seq<Compilation>)

  function ExecuteAll(host: Host, cache: map<string, Assembly>, codes: seq<Option<string>>): (b: Batch)
    ensures |b.outcomes| == |codes|
    decreases |codes|
  {
    if codes == [] then Batch(cache, [], [])
    else
      var r := Execute(host, cache, codes[0]);
      var rest := ExecuteAll(host, r.cache, codes[1..]);
      Batch(rest.cache, [r.outcome] + rest.outcomes, r.compiled + rest.compiled)
  }

  /** Every successful compilation in `b` was for a hash missing from `cache` that `b` ends up
      caching, and no two of them were for the same hash. */
  ghost predicate CompiledOnce(cache: map<string, Assembly>, b: Batch)
  {
    && (forall i :: 0 <= i < |b.compiled| && b.compiled[i].ok ==> b.compiled[i].key !in cache && b.compiled[i].key in b.cache)
    && (forall i, j :: 0 <= i < j < |b.compiled| && b.compiled[i].ok && b.compiled[j].ok ==>
          b.compiled[i].key != b.compiled[j].key)
  }

  /** Over any sequence of executions a hash is compiled successfully at most once, never when it
      was already cached, and every successful compilation stays cached. */
  lemma {:induction false} CompiledOncePerHash(host: Host, cache: map<string, Assembly>, codes: seq<Option<string>>)
    ensures CompiledOnce(cache, ExecuteAll(host, cache, codes))
    decreases |codes|
  {
    if codes != [] {
      var r := Execute(host, cache, codes[0]);
      var rest := ExecuteAll(host, r.cache, codes[1..]);
      CompiledOncePerHash(host, r.cache, codes[1..]);
      assert CompiledOnce(r.cache, rest);
      CacheGrows(host, cache, codes[0]);
      AllGrow(host, r.cache, codes[1..]);
      assert ExecuteAll(host, cache, codes) == Batch(rest.cache, [r.outcome] + rest.outcomes, r.compiled + rest.compiled);
      CompiledOnceCons(cache, r.cache, r.compiled, rest, [r.outcome] + rest.outcomes);
    }
  }

  /** `CompiledOnce` of one execution's compilations followed by a batch's. */
  lemma CompiledOnceCons(cache: map<string, Assembly>, mid: map<string, Assembly>, first: seq<Compilation>,
                         rest: Batch, outcomes: seq<Outcome>)
    requires |first| <= 1
    requires |first| == 1 ==> first[0].key !in cache && (first[0].ok <==> first[0].key in mid)
    requires forall k :: k in cache ==> k in mid
    requires forall k :: k in mid ==> k in rest.cache
    requires CompiledOnce(mid, rest)
    ensures CompiledOnce(cache, Batch(rest.cache, outcomes, first + rest.compiled))
  {
    var all := first + rest.compiled;
    forall i | 0 <= i < |all| && all[i].ok
      ensures all[i].key !in cache && all[i].key in rest.cache
    {
      if i >= |first| {
        assert all[i] == rest.compiled[i - |first|];
      } else {
        assert all[i] == first[0];
      }
    }
    forall i, j | 0 <= i < j < |all| && all[i].ok && all[j].ok
      ensures all[i].key != all[j].key
    {
      if i >= |first| {
        assert all[i] == rest.compiled[i - |first|];
        assert all[j] == rest.compiled[j - |first|];
      } else {
        assert all[i] == first[0];
        assert all[j] == rest.compiled[j - |first|];
      }
    }
  }

  /** The cache only grows over a sequence of executions. */
  lemma {:induction false} AllGrow(host: Host, cache: map<string, Assembly>, codes: seq<Option<string>>)
    ensures forall k :: k in cache ==> k in ExecuteAll(host, cache, codes).cache
    decreases |codes|
  {
    if codes != [] {
      CacheGrows(host, cache, codes[0]);
      AllGrow(host, Execute(host, cache, codes[0]).cache, codes[1..]);
    }
  }

  /** No negative caching: a snippet that fails to compile is compiled again when it is sent
      again, and both runs fail the same way. */
  lemma FailureRecompiled(host: Host, cache: map<string, Assembly>, code: string)
    requires code != "" && host.hash(code) !in cache && host.compile(Wrap(code)).None?
    ensures var b := ExecuteAll(host, cache, [Some(code), Some(code)]);
      && b.cache == cache
      && b.outcomes == [CompileFailed, CompileFailed]
      && b.compiled == [Compilation(host.hash(code), Wrap(code), false), Compilation(host.hash(code), Wrap(code), false)]
  {
    var codes := [Some(code), Some(code)];
    var c := Compilation(host.hash(code), Wrap(code), false);
    assert Execute(host, cache, Some(code)) == Run(CompileFailed, cache, [c]);
    assert codes[1..] == [Some(code)];
    assert [Some(code)][1..] == [];
    assert ExecuteAll(host, cache, [Some(code)]) == Batch(cache, [CompileFailed], [c]);
  }

  // ---------------------------------------------------------------------------------------
  // Sending, connecting, retrying.

  /** `SendMessage` adds a line feed unless the message already ends with one. */
  function Terminated(m: string): (r: string)
    ensures EndsWith(r, "\n")
    ensures |r| >= |m| && r[..|m|] == m
    ensures |r| <= |m| + 1
  {
    if EndsWith(m, "\n") then m else m + "\n"
  }

  /** Terminating twice is terminating once, and an already terminated message is sent as is. */
  lemma TerminatedIdempotent(m: string)
    ensures Terminated(Terminated(m)) == Terminated(m)
    ensures EndsWith(m, "\n") <==> Terminated(m) == m
  {
  }

  /** The connection side of the agent: `isConnected`, `isReconnecting`, the number of running
      `RetryConnection` coroutines, and every line written to the stream so far. */
  datatype Link = Link(connected: bool, reconnecting: bool, retryLoops: nat, sent: seq<string>)

  /** `DisconnectFromServer`: drop the connection and, unless a connect is in progress, start a
      `RetryConnection` coroutine. */
  function Disconnect(l: Link): Link
  {
    var l' := l.(connected := false);
    if !l.reconnecting then l'.(retryLoops := l.retryLoops + 1) else l'
  }

  /** `SendMessage(m)`: nothing when not connected; a failed write disconnects. */
  function Send(l: Link, m: string, writeOk: bool): Link
  {
    if !l.connected then l
    else if writeOk then l.(sent := l.sent + [Terminated(m)])
    else Disconnect(l)
  }

  /** `ConnectToServer`: `ok` says whether the connect completes within its timeout, `writeOk`
      whether the device-info write succeeds, `info` is the serialized device info. */
  function Connect(l: Link, ok: bool, writeOk: bool, info: string): (r: Link)
    ensures r.retryLoops >= l.retryLoops
  {
    if l.connected || l.reconnecting then l
    else if ok then Send(l.(connected := true, reconnecting := false), info, writeOk)
    else l.(connected := false, reconnecting := false, retryLoops := l.retryLoops + 1)
  }

  /** One `RetryConnection` coroutine wakes after its delay, calls `ConnectToServer`, and ends
      when the agent is then connected or reconnecting. */
  function Wake(l: Link, ok: bool, writeOk: bool, info: string): Link
    requires l.retryLoops > 0
  {
    var l' := Connect(l, ok, writeOk, info);
    if l'.connected || l'.reconnecting then l'.(retryLoops := l'.retryLoops - 1) else l'
  }

  /** One beat of `HeartbeatCoroutine`. */
  function Heartbeat(l: Link, writeOk: bool, info: string): Link
  {
    if l.connected then Send(l, info, writeOk) else l
  }

  /** `ConnectToServer` does nothing while connected or reconnecting. Otherwise a success
      connects, clears `isReconnecting` and sends the device info exactly once (a failed write
      drops the connection again); a failure clears both flags, sends nothing and starts one
      retry coroutine. */
  lemma ConnectSpec(l: Link, ok: bool, writeOk: bool, info: string)
    ensures var r := Connect(l, ok, writeOk, info);
      && (l.connected || l.reconnecting ==> r == l)
      && (!l.connected && !l.reconnecting && ok && writeOk ==>
            r.connected && !r.reconnecting && r.sent == l.sent + [Terminated(info)] && r.retryLoops == l.retryLoops)
      && (!l.connected && !l.reconnecting && ok && !writeOk ==>
            !r.connected && !r.reconnecting && r.sent == l.sent && r.retryLoops == l.retryLoops + 1)
      && (!l.connected && !l.reconnecting && !ok ==>
            !r.connected && !r.reconnecting && r.sent == l.sent && r.retryLoops == l.retryLoops + 1)
  {
  }

  /** Nothing is written while disconnected; a connected heartbeat writes the device info once. */
  lemma HeartbeatSpec(l: Link, writeOk: bool, info: string)
    ensures var r := Heartbeat(l, writeOk, info);
      && (!l.connected ==> r == l)
      && (l.connected && writeOk ==> r == l.(sent := l.sent + [Terminated(info)]))
      && (r.sent != l.sent ==> l.connected)
  {
  }

  /** `SendMessage` writes only while connected, writes the message with exactly one trailing line
      feed, and a failed write leaves the agent disconnected. */
  lemma SendSpec(l: Link, m: string, writeOk: bool)
    ensures var r := Send(l, m, writeOk);
      && (r.sent != l.sent ==> l.connected && writeOk && r.sent == l.sent + [Terminated(m)])
      && (l.connected && writeOk ==> r.connected && r.sent == l.sent + [Terminated(m)])
      && (l.connected && !writeOk ==> !r.connected && r.sent == l.sent)
      && (!l.connected ==> r == l)
  {
  }

  /** `isReconnecting` is set only inside `ConnectToServer` and cleared before it returns, so it
      is never observed set between two operations. */
  lemma NeverReconnectingBetween(l: Link, ok: bool, writeOk: bool, info: string, m: string)
    requires !l.reconnecting
    ensures !Connect(l, ok, writeOk, info).reconnecting
    ensures l.retryLoops > 0 ==> !Wake(l, ok, writeOk, info).reconnecting
    ensures !Send(l, m, writeOk).reconnecting && !Disconnect(l).reconnecting
    ensures !Heartbeat(l, writeOk, info).reconnecting
  {
  }

  /** Retry coroutines wake one after another and every attempt fails. */
  function FailedRound(l: Link, wakes: nat): (r: Link)
    requires l.retryLoops > 0 && !l.connected && !l.reconnecting
    ensures r.retryLoops > 0 && !r.connected && !r.reconnecting
    decreases wakes
  {
    if wakes == 0 then l else FailedRound(Wake(l, false, false, ""), wakes - 1)
  }

  /** As written, a failed attempt made by a retry coroutine starts another coroutine while the
      one that made it keeps looping: every failed wake adds a coroutine. */
  lemma {:induction false} RetryLoopsGrow(l: Link, wakes: nat)
    requires l.retryLoops > 0 && !l.connected && !l.reconnecting
    ensures FailedRound(l, wakes).retryLoops == l.retryLoops + wakes
    decreases wakes
  {
    if wakes > 0 {
      var l' := Wake(l, false, false, "");
      assert l'.retryLoops == l.retryLoops + 1 && !l'.connected && !l'.reconnecting;
      RetryLoopsGrow(l', wakes - 1);
    }
  }

  /** A round in which each of `n` running retry coroutines fails once leaves `2n` of them. */
  lemma RetryLoopsDouble(l: Link)
    requires l.retryLoops > 0 && !l.connected && !l.reconnecting
    ensures FailedRound(l, l.retryLoops).retryLoops == 2 * l.retryLoops
  {
    RetryLoopsGrow(l, l.retryLoops);
  }

  /** One retry coroutine at a time: a failure, or a disconnect, starts a coroutine only when
      none is running. */
  function ConnectSingle(l: Link, ok: bool, writeOk: bool, info: string): (r: Link)
    ensures r.retryLoops >= l.retryLoops
    ensures l.retryLoops <= 1 ==> r.retryLoops <= 1
  {
    if l.connected || l.reconnecting then l
    else if ok then SendSingle(l.(connected := true, reconnecting := false), info, writeOk)
    else l.(connected := false, reconnecting := false, retryLoops := if l.retryLoops == 0 then 1 else l.retryLoops)
  }

  function DisconnectSingle(l: Link): (r: Link)
    ensures r.retryLoops >= l.retryLoops
    ensures l.retryLoops <= 1 ==> r.retryLoops <= 1
  {
    var l' := l.(connected := false);
    if !l.reconnecting && l.retryLoops == 0 then l'.(retryLoops := 1) else l'
  }

  function SendSingle(l: Link, m: string, writeOk: bool): (r: Link)
    ensures r.retryLoops >= l.retryLoops
    ensures l.retryLoops <= 1 ==> r.retryLoops <= 1
  {
    if !l.connected then l
    else if writeOk then l.(sent := l.sent + [Terminated(m)])
    else DisconnectSingle(l)
  }

  function WakeSingle(l: Link, ok: bool, writeOk: bool, info: string): Link
    requires l.retryLoops > 0
  {
    var l' := ConnectSingle(l, ok, writeOk, info);
    if l'.connected || l'.reconnecting then l'.(retryLoops := l'.retryLoops - 1) else l'
  }

  /** With the single-coroutine rule the number of retry coroutines never exceeds one, and a
      failed attempt keeps the coroutine that made it without adding another. */
  lemma SingleRetryLoop(l: Link, ok: bool, writeOk: bool, info: string, m: string)
    requires l.retryLoops <= 1
    ensures ConnectSingle(l, ok, writeOk, info).retryLoops <= 1
    ensures DisconnectSingle(l).retryLoops <= 1
    ensures SendSingle(l, m, writeOk).retryLoops <= 1
    ensures l.retryLoops == 1 ==> WakeSingle(l, ok, writeOk, info).retryLoops <= 1
    ensures l.retryLoops == 1 && !l.connected && !l.reconnecting ==> WakeSingle(l, false, writeOk, info).retryLoops == 1
  {
  }

  /** `DisconnectFromServer` as the receive thread runs it after a read error. `receiveThread` is
      the calling thread itself, so `receiveThread.Abort()` ends it before `StartCoroutine` is
      reached (a call Unity allows only on the main thread): only `isConnected` is cleared. */
  function ReceiveFailure(l: Link): Link
  {
    l.(connected := false)
  }

  /** As written, a read error strands the agent: it is disconnected, no retry coroutine is
      started, and sends and heartbeats then change nothing. Only a coroutine already running,
      or a resume from pause, calls `ConnectToServer` again. */
  lemma ReadErrorStrands(l: Link, m: string, writeOk: bool, info: string)
    requires !l.reconnecting
    ensures var r := ReceiveFailure(l);
      && !r.connected && r.retryLoops == l.retryLoops && r.sent == l.sent
      && r.retryLoops < Disconnect(l).retryLoops
      && Send(r, m, writeOk) == r && Heartbeat(r, writeOk, info) == r
  {
  }

  /** Corrected: the receive thread hands the disconnect to the main thread, where it starts a
      retry coroutine; with the single-coroutine rule exactly one retry loop then runs. */
  lemma ReadErrorRetried(l: Link)
    requires !l.reconnecting && l.retryLoops <= 1
    ensures var r := DisconnectSingle(l);
      !r.connected && r.retryLoops == 1 && r.sent == l.sent
  {
  }

  // ---------------------------------------------------------------------------------------
  // Receiving commands.

  /** The lines of `ls`, each followed by its line feed. */
  function JoinLines(ls: seq<string>): string
  {
    if ls == [] then [] else ls[0] + "\n" + JoinLines(ls[1..])
  }

  /** The complete lines of a buffer, in order, and the unterminated rest. */
  function SplitLines(buf: string): (r: (seq<string>, string))
    ensures forall i :: 0 <= i < |r.0| ==> '\n' !in r.0[i]
    ensures '\n' !in r.1
    ensures JoinLines(r.0) + r.1 == buf
    decreases |buf|
  {
    var k := IndexOf(buf, '\n');
    if k == -1 then ([], buf)
    else
      var tail := SplitLines(buf[k + 1..]);
      SplitCons(buf, k, tail.0, tail.1);
      ([buf[..k]] + tail.0, tail.1)
  }

  /** Putting a first line in front of the split of the text after its line feed. */
  lemma SplitCons(buf: string, k: int, ls: seq<string>, rest: string)
    requires 0 <= k < |buf| && buf[k] == '\n' && '\n' !in buf[..k]
    requires forall i :: 0 <= i < |ls| ==> '\n' !in ls[i]
    requires JoinLines(ls) + rest == buf[k + 1..]
    ensures forall i :: 0 <= i < |[buf[..k]] + ls| ==> '\n' !in ([buf[..k]] + ls)[i]
    ensures JoinLines([buf[..k]] + ls) + rest == buf
  {
    var ls' := [buf[..k]] + ls;
    assert ls'[0] == buf[..k] && ls'[1..] == ls;
    forall i | 0 <= i < |ls'| ensures '\n' !in ls'[i] {
      if i > 0 {
        assert ls'[i] == ls[i - 1];
      }
    }
    assert JoinLines(ls') + rest == buf[..k] + "\n" + (JoinLines(ls) + rest);
    assert buf == buf[..k] + "\n" + buf[k + 1..];
  }

  /** One step of cutting: the first line, if any, and the split of what follows it. */
  lemma SplitStep(buf: string)
    ensures IndexOf(buf, '\n') == -1 ==> SplitLines(buf) == ([], buf)
    ensures var k := IndexOf(buf, '\n');
      k != -1 ==> SplitLines(buf) == ([buf[..k]] + SplitLines(buf[k + 1..]).0, SplitLines(buf[k + 1..]).1)
  {
  }

  /** The first line feed found where it is. */
  lemma {:induction false} IndexOfAt(s: string, c: char, k: int)
    requires 0 <= k < |s| && s[k] == c && c !in s[..k]
    ensures IndexOf(s, c) == k
    decreases k
  {
    if k > 0 {
      assert s[0] == s[..k][0];
      assert s[1..][..k - 1] == s[..k][1..];
      IndexOfAt(s[1..], c, k - 1);
    }
  }

  /** The split is the only one with these properties: a buffer is cut at every line feed. */
  lemma {:induction false} SplitLinesUnique(ls: seq<string>, rest: string)
    requires forall i :: 0 <= i < |ls| ==> '\n' !in ls[i]
    requires '\n' !in rest
    ensures SplitLines(JoinLines(ls) + rest) == (ls, rest)
    decreases |ls|
  {
    if ls == [] {
      assert JoinLines(ls) + rest == rest;
      SplitStep(rest);
    } else {
      var buf := JoinLines(ls) + rest;
      var tail := JoinLines(ls[1..]) + rest;
      var k := |ls[0]|;
      assert buf == ls[0] + "\n" + tail;
      assert buf[..k] == ls[0] && buf[k] == '\n' && buf[k + 1..] == tail;
      IndexOfAt(buf, '\n', k);
      SplitLinesUnique(ls[1..], rest);
      SplitStep(buf);
      assert ls == [ls[0]] + ls[1..];
    }
  }

  /** `CodeData`: the `code` field, `None` when null. */
  datatype CodeData = CodeData(code: Option<string>)

  /** `CommandData`: the `type` field and the `data` object, `None` when null. */
  datatype CommandData = CommandData(kind: Option<string>, data: Option<CodeData>)

  /** The only command type the agent acts on. */
  const ExecuteCodeKind: string := "execute_code"

  /** A queued main-thread action. The agent only ever queues "run this snippet". */
  datatype Action = RunCode(code: Option<string>)

  /** `ProcessCommand` on a deserialized command (`None`: the JSON was rejected or was `null`):
      an `execute_code` with a `data` object queues one action; anything else, or a null
      `data` (its code is read for the log line and throws), queues nothing. */
  function CommandActions(cmd: Option<CommandData>): seq<Action>
  {
    if cmd.Some? && cmd.value.kind == Some(ExecuteCodeKind) && cmd.value.data.Some?
    then [RunCode(cmd.value.data.value.code)]
    else []
  }

  /** The actions a sequence of commands queues, in order. */
  function CommandsActions(cmds: seq<string>, parse: string -> Option<CommandData>): seq<Action>
  {
    if cmds == [] then [] else CommandActions(parse(cmds[0])) + CommandsActions(cmds[1..], parse)
  }

  // ---------------------------------------------------------------------------------------
  // Scene objects in the runtime context.

  /** `name.Replace(" ", "_").Replace("-", "_")`. */
  function SafeName(name: string): (r: string)
    ensures |r| == |name|
    ensures forall k :: 0 <= k < |name| ==> r[k] == if name[k] == ' ' || name[k] == '-' then '_' else name[k]
  {
    ReplaceByChar(name, ' ', '_');
    ReplaceByChar(Replace(name, ' ', "_"), '-', '_');
    Replace(Replace(name, ' ', "_"), '-', "_")
  }

  /** A scene object: its name and its identity. */
  datatype SceneObject = SceneObject(name: string, id: nat)

  /** A value stored in `runtimeContext`: a scene object, or one of the engine entries the agent
      puts there at start-up. */
  datatype ContextValue = GameObjectRef(id: nat) | EngineRef(name: string)

  /** The runtime context after registering `objects` in order; unnamed objects are skipped. */
  function Refreshed(ctx: map<string, ContextValue>, objects: seq<SceneObject>): map<string, ContextValue>
    decreases |objects|
  {
    if objects == [] then ctx
    else
      var o := objects[0];
      Refreshed(if o.name != "" then ctx[SafeName(o.name) := GameObjectRef(o.id)] else ctx, objects[1..])
  }

  /** The object `objects[i]` is the last named one stored under key `k`. */
  ghost predicate LastUnder(objects: seq<SceneObject>, i: int, k: string)
  {
    0 <= i < |objects| && objects[i].name != "" && SafeName(objects[i].name) == k
    && forall j :: i < j < |objects| && objects[j].name != "" ==> SafeName(objects[j].name) != k
  }

  /** After `RefreshSceneObjects` a key holds the last named object whose safe name it is. */
  lemma {:induction false} RefreshedLast(ctx: map<string, ContextValue>, objects: seq<SceneObject>, k: string, i: int)
    requires LastUnder(objects, i, k)
    ensures var r := Refreshed(ctx, objects);
      k in r && r[k] == GameObjectRef(objects[i].id)
    decreases |objects|
  {
    var o := objects[0];
    var ctx' := if o.name != "" then ctx[SafeName(o.name) := GameObjectRef(o.id)] else ctx;
    var rest := objects[1..];
    assert Refreshed(ctx, objects) == Refreshed(ctx', rest);
    LastUnderTail(objects, i, k);
    if i == 0 {
      RefreshedUntouched(ctx', rest, k);
    } else {
      RefreshedLast(ctx', rest, k, i - 1);
    }
  }

  /** Dropping the first object: either it was the last one under `k`, and no later one is, or
      the last one under `k` is one place earlier in the rest. */
  lemma LastUnderTail(objects: seq<SceneObject>, i: int, k: string)
    requires LastUnder(objects, i, k)
    ensures i == 0 ==> forall j :: 0 <= j < |objects[1..]| && objects[1..][j].name != "" ==> SafeName(objects[1..][j].name) != k
    ensures i > 0 ==> LastUnder(objects[1..], i - 1, k)
  {
    var rest := objects[1..];
    forall j | i - 1 < j < |rest| && rest[j].name != ""
      ensures SafeName(rest[j].name) != k
    {
      assert rest[j] == objects[j + 1];
    }
    if i > 0 {
      assert rest[i - 1] == objects[i];
    }
  }

  /** Keys that no named object maps to keep their entries, and no other key appears. */
  lemma {:induction false} RefreshedUntouched(ctx: map<string, ContextValue>, objects: seq<SceneObject>, k: string)
    requires forall j :: 0 <= j < |objects| && objects[j].name != "" ==> SafeName(objects[j].name) != k
    ensures var r := Refreshed(ctx, objects);
      (k in r <==> k in ctx) && (k in ctx ==> r[k] == ctx[k])
    decreases |objects|
  {
    if objects != [] {
      var o := objects[0];
      var ctx' := if o.name != "" then ctx[SafeName(o.name) := GameObjectRef(o.id)] else ctx;
      var rest := objects[1..];
      assert Refreshed(ctx, objects) == Refreshed(ctx', rest);
      forall j | 0 <= j < |rest| && rest[j].name != ""
        ensures SafeName(rest[j].name) != k
      {
        assert rest[j] == objects[j + 1];
      }
      RefreshedUntouched(ctx', rest, k);
    }
  }

  /** Names that differ only in spaces and hyphens land on the same key. */
  lemma SafeNameCollides(a: string, b: string)
    requires |a| == |b|
    requires forall k :: 0 <= k < |a| ==> a[k] == b[k] || ((a[k] == ' ' || a[k] == '-') && (b[k] == ' ' || b[k] == '-'))
    ensures SafeName(a) == SafeName(b)
  {
  }

  // ---------------------------------------------------------------------------------------
  // The main-thread queue.

  /** All actions of a sequence of batches, in order. */
  function Flatten(batches: seq<seq<Action>>): seq<Action>
  {
    if batches == [] then [] else batches[0] + Flatten(batches[1..])
  }

  /** The actions `Update` runs: it dequeues and runs one action at a time until the queue is
      empty; `arrivals[k]` is what other threads enqueue while the `k`-th action runs. */
  function Drain(queue: seq<Action>, arrivals: seq<seq<Action>>): seq<Action>
    decreases |queue| + |Flatten(arrivals)|
  {
    if queue == [] then []
    else if arrivals == [] then queue
    else
      assert Flatten(arrivals) == arrivals[0] + Flatten(arrivals[1..]);
      [queue[0]] + Drain(queue[1..] + arrivals[0], arrivals[1..])
  }

  /** `Update` runs everything queued when it starts, first and in order, then what arrives
      while it runs, in the order it was enqueued. */
  lemma {:induction false} DrainFifo(queue: seq<Action>, arrivals: seq<seq<Action>>)
    ensures var d := Drain(queue, arrivals);
      && |queue| <= |d| && d[..|queue|] == queue
      && |d| <= |queue + Flatten(arrivals)| && d == (queue + Flatten(arrivals))[..|d|]
    decreases |queue| + |Flatten(arrivals)|
  {
    if queue != [] && arrivals != [] {
      var q' := queue[1..] + arrivals[0];
      assert Flatten(arrivals) == arrivals[0] + Flatten(arrivals[1..]);
      DrainFifo(q', arrivals[1..]);
      var d' := Drain(q', arrivals[1..]);
      assert q'[..|queue| - 1] == queue[1..];
      assert d'[..|queue| - 1] == queue[1..];
      assert queue + Flatten(arrivals) == [queue[0]] + (q' + Flatten(arrivals[1..]));
    }
  }

  /** When every running action is accompanied by new arrivals the queue never runs dry early:
      `Update` runs everything, including all that was enqueued during the drain. */
  lemma {:induction false} DrainComplete(queue: seq<Action>, arrivals: seq<seq<Action>>)
    requires queue != []
    requires forall k :: 0 <= k < |arrivals| ==> arrivals[k] != []
    ensures Drain(queue, arrivals) == queue + Flatten(arrivals)
    decreases |queue| + |Flatten(arrivals)|
  {
    if arrivals == [] {
      assert queue + Flatten(arrivals) == queue;
    } else {
      var q' := queue[1..] + arrivals[0];
      assert Flatten(arrivals) == arrivals[0] + Flatten(arrivals[1..]);
      forall k | 0 <= k < |arrivals[1..]| ensures arrivals[1..][k] != [] {
        assert arrivals[1..][k] == arrivals[k + 1];
      }
      DrainComplete(q', arrivals[1..]);
      assert Drain(queue, arrivals) == [queue[0]] + Drain(q', arrivals[1..]);
      calc {
        [queue[0]] + (q' + Flatten(arrivals[1..]));
        ([queue[0]] + queue[1..]) + (arrivals[0] + Flatten(arrivals[1..]));
        { assert [queue[0]] + queue[1..] == queue; }
        queue + Flatten(arrivals);
      }
    }
  }

  /** `Update` runs the initial queue and then everything enqueued while one of its actions ran:
      when it has run `|d|` actions, the first `|d|` batches of arrivals (or all of them) are
      run in full, and it stops only when the queue has run dry. */
  lemma {:induction false} DrainRunsArrivals(queue: seq<Action>, arrivals: seq<seq<Action>>)
    ensures var d := Drain(queue, arrivals);
      var m := if |d| < |arrivals| then |d| else |arrivals|;
      d == queue + Flatten(arrivals[..m])
    decreases |queue| + |Flatten(arrivals)|
  {
    if queue == [] {
      assert arrivals[..0] == [];
    } else if arrivals == [] {
      assert queue + Flatten(arrivals[..0]) == queue;
    } else {
      var q' := queue[1..] + arrivals[0];
      assert Flatten(arrivals) == arrivals[0] + Flatten(arrivals[1..]);
      DrainRunsArrivals(q', arrivals[1..]);
      var d' := Drain(q', arrivals[1..]);
      var m' := if |d'| < |arrivals| - 1 then |d'| else |arrivals| - 1;
      var m := m' + 1;
      assert arrivals[..m][0] == arrivals[0] && arrivals[..m][1..] == arrivals[1..][..m'];
      assert Flatten(arrivals[..m]) == arrivals[0] + Flatten(arrivals[1..][..m']);
      calc {
        Drain(queue, arrivals);
        [queue[0]] + d';
        [queue[0]] + (q' + Flatten(arrivals[1..][..m']));
        ([queue[0]] + queue[1..]) + (arrivals[0] + Flatten(arrivals[1..][..m']));
        { assert [queue[0]] + queue[1..] == queue; }
        queue + Flatten(arrivals[..m]);
      }
    }
  }

  /** The snippets of a sequence of actions. */
  function Codes(actions: seq<Action>): (r: seq<Option<string>>)
    ensures |r| == |actions|
    ensures forall k :: 0 <= k < |actions| ==> r[k] == actions[k].code
  {
    if actions == [] then [] else [actions[0].code] + Codes(actions[1..])
  }

  // ---------------------------------------------------------------------------------------
  // The objects as the program updates them.

  /** `UnityMainThreadDispatcher`: a FIFO queue of actions. */
  class Dispatcher {
    var queue: seq<Action>

    constructor ()
      ensures queue == []
    {
      queue := [];
    }

    method Enqueue(action: Action)
      modifies this
      ensures queue == old(queue) + [action]
    {
      queue := queue + [action];
    }

    /** `Update`: run every queued action on `logger`, including the ones that arrive meanwhile;
        an action that fails does not stop the ones after it. */
    method Update(logger: RemoteLogger, host: Host, arrivals: seq<seq<Action>>)
      returns (ran: seq<Action>, outcomes: seq<Outcome>)
      modifies this, logger
      ensures ran == Drain(old(queue), arrivals) && queue == []
      ensures var b := ExecuteAll(host, old(logger.compiledAssemblies), Codes(ran));
        outcomes == b.outcomes && logger.compiledAssemblies == b.cache
      ensures logger.Conn() == old(logger.Conn())
    {
      ran, outcomes := [], [];
      var k := 0;
      ghost var cache0 := logger.compiledAssemblies;
      while queue != []
        invariant 0 <= k <= |arrivals|
        invariant ran + Drain(queue, arrivals[k..]) == Drain(old(queue), arrivals)
        invariant var b := ExecuteAll(host, cache0, Codes(ran));
          outcomes == b.outcomes && logger.compiledAssemblies == b.cache
        invariant logger.Conn() == old(logger.Conn())
        decreases |queue| + |Flatten(arrivals[k..])|
      {
        var action := queue[0];
        DrainStep(ran, queue, arrivals, k);
        RunStep(host, cache0, ran, action);
        queue := queue[1..];
        var outcome := logger.ExecuteCodeLocally(action.code, host);
        ran, outcomes := ran + [action], outcomes + [outcome];
        if k < |arrivals| {
          queue := queue + arrivals[k];
          k := k + 1;
        }
      }
    }
  }

  /** One turn of `Update`'s loop: the action at the head of the queue is the next one `Drain`
      runs, and what arrives while it runs joins the tail of the queue. */
  lemma DrainStep(ran: seq<Action>, queue: seq<Action>, arrivals: seq<seq<Action>>, k: nat)
    requires queue != [] && k <= |arrivals|
    ensures var q := if k < |arrivals| then queue[1..] + arrivals[k] else queue[1..];
      var k' := if k < |arrivals| then k + 1 else k;
      && (ran + [queue[0]]) + Drain(q, arrivals[k'..]) == ran + Drain(queue, arrivals[k..])
      && |q| + |Flatten(arrivals[k'..])| < |queue| + |Flatten(arrivals[k..])|
  {
    if k < |arrivals| {
      var rest := arrivals[k..];
      assert rest[0] == arrivals[k] && rest[1..] == arrivals[k + 1..];
      assert Flatten(rest) == arrivals[k] + Flatten(arrivals[k + 1..]);
      assert Drain(queue, rest) == [queue[0]] + Drain(queue[1..] + arrivals[k], arrivals[k + 1..]);
    } else {
      assert arrivals[k..] == [];
      assert queue == [queue[0]] + queue[1..];
    }
  }

  /** Running the next action extends the batch of everything run before it. */
  lemma RunStep(host: Host, cache0: map<string, Assembly>, ran: seq<Action>, a: Action)
    ensures var b := ExecuteAll(host, cache0, Codes(ran));
      var r := Execute(host, b.cache, a.code);
      ExecuteAll(host, cache0, Codes(ran + [a])) == Batch(r.cache, b.outcomes + [r.outcome], b.compiled + r.compiled)
  {
    ExecuteAllSnoc(host, cache0, Codes(ran), a.code);
    assert Codes(ran + [a]) == Codes(ran) + [a.code];
  }

  /** Running one more snippet after a batch. */
  lemma {:induction false} ExecuteAllSnoc(host: Host, cache: map<string, Assembly>, codes: seq<Option<string>>, c: Option<string>)
    ensures var b := ExecuteAll(host, cache, codes);
      var r := Execute(host, b.cache, c);
      ExecuteAll(host, cache, codes + [c]) == Batch(r.cache, b.outcomes + [r.outcome], b.compiled + r.compiled)
    decreases |codes|
  {
    if codes == [] {
      assert codes + [c] == [c];
      assert [c][1..] == [];
    } else {
      assert (codes + [c])[1..] == codes[1..] + [c];
      ExecuteAllSnoc(host, Execute(host, cache, codes[0]).cache, codes[1..], c);
    }
  }

  /** `ProcessCommand`: queue the snippet of an `execute_code` on the main thread. */
  method ProcessCommand(command: string, parse: string -> Option<CommandData>, dispatcher: Dispatcher)
    modifies dispatcher
    ensures dispatcher.queue == old(dispatcher.queue) + CommandActions(parse(command))
  {
    var cmd := parse(command);
    if cmd.Some? && cmd.value.kind == Some(ExecuteCodeKind) {
      if cmd.value.data.None? {
        return;
      }
      dispatcher.Enqueue(RunCode(cmd.value.data.value.code));
    }
  }

  /** `lines` are the lines cut so far from `buffer` and `rest` is what is left of it. */
  ghost predicate CutSoFar(buffer: string, lines: seq<string>, rest: string)
  {
    JoinLines(lines) + rest == buffer && forall i :: 0 <= i < |lines| ==> '\n' !in lines[i]
  }

  /** Cutting the next line keeps `CutSoFar`. */
  lemma CutLine(buffer: string, lines: seq<string>, rest: string, k: int)
    requires CutSoFar(buffer, lines, rest)
    requires k == IndexOf(rest, '\n') && k != -1
    ensures CutSoFar(buffer, lines + [rest[..k]], rest[k + 1..])
  {
    BreakAt(rest, k);
    CutAt(buffer, lines, rest, k);
  }

  /** The first line feed splits the text into a line without one and the text after it. */
  lemma BreakAt(rest: string, k: int)
    requires k == IndexOf(rest, '\n') && k != -1
    ensures rest == rest[..k] + "\n" + rest[k + 1..] && '\n' !in rest[..k]
  {
    assert rest == rest[..k] + [rest[k]] + rest[k + 1..];
  }

  lemma CutAt(buffer: string, lines: seq<string>, rest: string, k: int)
    requires CutSoFar(buffer, lines, rest)
    requires 0 <= k < |rest|
    requires rest == rest[..k] + "\n" + rest[k + 1..] && '\n' !in rest[..k]
    ensures CutSoFar(buffer, lines + [rest[..k]], rest[k + 1..])
  {
    var line, tail := rest[..k], rest[k + 1..];
    JoinLinesSnoc(lines, line);
    assert JoinLines(lines + [line]) + tail == JoinLines(lines) + rest;
    assert forall i :: 0 <= i < |[line]| ==> '\n' !in [line][i];
    LinesAppend(lines, [line]);
  }

  /** The cutting loop of `ReceiveData` over the accumulated text `buffer`. */
  method DispatchLines(buffer: string, parse: string -> Option<CommandData>, dispatcher: Dispatcher)
    returns (commands: seq<string>, rest: string)
    modifies dispatcher
    ensures CutSoFar(buffer, commands, rest) && '\n' !in rest
    ensures dispatcher.queue == old(dispatcher.queue) + CommandsActions(commands, parse)
  {
    rest := buffer;
    commands := [];
    assert JoinLines(commands) + rest == buffer;
    while IndexOf(rest, '\n') != -1
      invariant CutSoFar(buffer, commands, rest)
      invariant dispatcher.queue == old(dispatcher.queue) + CommandsActions(commands, parse)
      decreases |rest|
    {
      var newlineIndex := IndexOf(rest, '\n');
      var message := rest[..newlineIndex];
      CutLine(buffer, commands, rest, newlineIndex);
      rest := rest[newlineIndex + 1..];
      ProcessCommand(message, parse, dispatcher);
      CommandsActionsSnoc(commands, message, parse);
      commands := commands + [message];
    }
  }

  /** The read loop of `ReceiveData`: every read is appended to the thread's local buffer, whose
      complete lines are then cut and dispatched. The lines dispatched and the text left over
      are those of the whole received text, however it was chunked. */
  method ReadLoop(chunks: seq<string>, parse: string -> Option<CommandData>, dispatcher: Dispatcher)
    returns (commands: seq<string>, messageBuilder: string)
    modifies dispatcher
    ensures (commands, messageBuilder) == SplitLines(Concat(chunks))
    ensures dispatcher.queue == old(dispatcher.queue) + CommandsActions(commands, parse)
  {
    messageBuilder := "";
    commands := [];
    for i := 0 to |chunks|
      invariant CutSoFar(Concat(chunks[..i]), commands, messageBuilder) && '\n' !in messageBuilder
      invariant dispatcher.queue == old(dispatcher.queue) + CommandsActions(commands, parse)
    {
      ghost var before := messageBuilder;
      ghost var queue := dispatcher.queue;
      var cut;
      cut, messageBuilder := DispatchLines(messageBuilder + chunks[i], parse, dispatcher);
      ReadStep(chunks, i, commands, before, cut, messageBuilder, parse, old(dispatcher.queue), queue, dispatcher.queue);
      commands := commands + cut;
    }
    ReadDone(chunks, commands, messageBuilder);
  }

  /** One turn of the read loop keeps the cut and the queue in step with all text read. */
  lemma ReadStep(chunks: seq<string>, i: int, lines: seq<string>, rest: string, cut: seq<string>, rest': string,
                 parse: string -> Option<CommandData>, q0: seq<Action>, q: seq<Action>, q': seq<Action>)
    requires 0 <= i < |chunks|
    requires CutSoFar(Concat(chunks[..i]), lines, rest)
    requires CutSoFar(rest + chunks[i], cut, rest')
    requires q == q0 + CommandsActions(lines, parse) && q' == q + CommandsActions(cut, parse)
    ensures CutSoFar(Concat(chunks[..i + 1]), lines + cut, rest')
    ensures q' == q0 + CommandsActions(lines + cut, parse)
  {
    ReceiveStep(chunks, i, lines, rest, cut, rest');
    CommandsActionsAppend(lines, cut, parse);
  }

  /** Once every read is in, the cut is the one `SplitLines` gives the whole text. */
  lemma ReadDone(chunks: seq<string>, lines: seq<string>, rest: string)
    requires CutSoFar(Concat(chunks[..|chunks|]), lines, rest) && '\n' !in rest
    ensures (lines, rest) == SplitLines(Concat(chunks))
  {
    assert chunks[..|chunks|] == chunks;
    SplitLinesUnique(lines, rest);
  }

  /** The agent component. */
  class RemoteLogger {
    var isConnected: bool
    var isReconnecting: bool
    /** Running `RetryConnection` coroutines. */
    var retryLoops: nat
    /** Every line written to the network stream. */
    var sent: seq<string>
    var compiledAssemblies: map<string, Assembly>
    var runtimeContext: map<string, ContextValue>

    function Conn(): Link
      reads this
    {
      Link(isConnected, isReconnecting, retryLoops, sent)
    }

    /** Between operations no connect is in progress. */
    ghost predicate Valid()
      reads this
    {
      !isReconnecting
    }

    constructor ()
      ensures Valid() && Conn() == Link(false, false, 0, [])
      ensures compiledAssemblies == map[] && runtimeContext == map[]
    {
      isConnected, isReconnecting, retryLoops, sent := false, false, 0, [];
      compiledAssemblies, runtimeContext := map[], map[];
    }

    method DisconnectFromServer()
      modifies this
      ensures Conn() == Disconnect(old(Conn()))
      ensures compiledAssemblies == old(compiledAssemblies) && runtimeContext == old(runtimeContext)
    {
      isConnected := false;
      if !isReconnecting {
        retryLoops := retryLoops + 1;
      }
    }

    method SendMessage(message: string, writeOk: bool)
      modifies this
      ensures Conn() == Send(old(Conn()), message, writeOk)
      ensures compiledAssemblies == old(compiledAssemblies) && runtimeContext == old(runtimeContext)
    {
      if !isConnected {
        return;
      }
      var m := message;
      if !EndsWith(m, "\n") {
        m := m + "\n";
      }
      if writeOk {
        sent := sent + [m];
      } else {
        DisconnectFromServer();
      }
    }

    method ConnectToServer(ok: bool, writeOk: bool, info: string)
      requires Valid()
      modifies this
      ensures Valid() && Conn() == Connect(old(Conn()), ok, writeOk, info)
      ensures compiledAssemblies == old(compiledAssemblies) && runtimeContext == old(runtimeContext)
    {
      if isConnected || isReconnecting {
        return;
      }
      isReconnecting := true;
      if ok {
        isConnected := true;
        isReconnecting := false;
        SendMessage(info, writeOk);
      } else {
        isConnected := false;
        isReconnecting := false;
        retryLoops := retryLoops + 1;
      }
    }

    /** One `RetryConnection` coroutine wakes: it connects, and ends if that left the agent
        connected or reconnecting. */
    method RetryWake(ok: bool, writeOk: bool, info: string)
      requires Valid() && retryLoops > 0
      modifies this
      ensures Valid() && Conn() == Wake(old(Conn()), ok, writeOk, info)
      ensures compiledAssemblies == old(compiledAssemblies) && runtimeContext == old(runtimeContext)
    {
      ConnectToServer(ok, writeOk, info);
      if isConnected || isReconnecting {
        retryLoops := retryLoops - 1;
      }
    }

    method HeartbeatBeat(writeOk: bool, info: string)
      modifies this
      ensures Conn() == Heartbeat(old(Conn()), writeOk, info)
      ensures compiledAssemblies == old(compiledAssemblies) && runtimeContext == old(runtimeContext)
    {
      if isConnected {
        SendMessage(info, writeOk);
      }
    }

    /** `HandleLog`: escape the text (the stack trace only when non-empty), serialize the
        record, and send it as one line. */
    method HandleLog(logString: string, stackTrace: string, logType: string, timestamp: string,
                     serialize: (string, string, string, string) -> string, writeOk: bool)
      modifies this
      ensures Conn() == Send(old(Conn()),
        serialize(logType, Escape(logString), EscapeStackTrace(stackTrace), timestamp) + "\n", writeOk)
      ensures compiledAssemblies == old(compiledAssemblies) && runtimeContext == old(runtimeContext)
    {
      var message := Escape(logString);
      var trace := stackTrace;
      if trace != "" {
        trace := Escape(trace);
      }
      var json := serialize(logType, message, trace, timestamp);
      SendMessage(json + "\n", writeOk);
    }

    method ExecuteCodeLocally(code: Option<string>, host: Host) returns (outcome: Outcome)
      modifies this
      ensures var r := Execute(host, old(compiledAssemblies), code);
        outcome == r.outcome && compiledAssemblies == r.cache
      ensures Conn() == old(Conn()) && runtimeContext == old(runtimeContext)
    {
      if code.None? || code.value == "" {
        return EmptyCode;
      }
      var codeHash := host.hash(code.value);
      var assembly: Assembly;
      if codeHash in compiledAssemblies {
        assembly := compiledAssemblies[codeHash];
      } else {
        var compiled := host.compile(Wrap(code.value));
        if compiled.Some? {
          assembly := compiled.value;
          compiledAssemblies := compiledAssemblies[codeHash := assembly];
        } else {
          return CompileFailed;
        }
      }
      if !host.hasScriptType(assembly) {
        return NoScriptType;
      }
      var lookup := host.executeMethod(assembly);
      if lookup.Missing? {
        return NoExecuteMethod;
      } else if lookup.Ambiguous? {
        return Faulted;
      }
      var invocation := host.invoke(assembly);
      if invocation.Threw? {
        return Faulted;
      }
      return Result(invocation.value);
    }

    /** The `ReceiveData` thread: `chunks` are the texts of its successful reads in order;
        `readFails` says whether it then stops on a read error, which disconnects from this
        thread: the thread aborts itself before a retry coroutine is started. */
    method ReceiveData(chunks: seq<string>, readFails: bool, parse: string -> Option<CommandData>, dispatcher: Dispatcher)
      returns (commands: seq<string>, pending: string)
      modifies this, dispatcher
      ensures (commands, pending) == SplitLines(Concat(chunks))
      ensures dispatcher.queue == old(dispatcher.queue) + CommandsActions(commands, parse)
      ensures Conn() == if readFails then ReceiveFailure(old(Conn())) else old(Conn())
      ensures compiledAssemblies == old(compiledAssemblies) && runtimeContext == old(runtimeContext)
    {
      commands, pending := ReadLoop(chunks, parse, dispatcher);
      if readFails {
        isConnected := false;
      }
    }

    /** `RefreshSceneObjects`: store every named object under its safe name. */
    method RefreshSceneObjects(objects: seq<SceneObject>)
      modifies this
      ensures runtimeContext == Refreshed(old(runtimeContext), objects)
      ensures Conn() == old(Conn()) && compiledAssemblies == old(compiledAssemblies)
    {
      for i := 0 to |objects|
        invariant Refreshed(runtimeContext, objects[i..]) == Refreshed(old(runtimeContext), objects)
        invariant Conn() == old(Conn()) && compiledAssemblies == old(compiledAssemblies)
      {
        assert objects[i..][1..] == objects[i + 1..];
        var obj := objects[i];
        if obj.name != "" {
          var safeName := SafeName(obj.name);
          runtimeContext := runtimeContext[safeName := GameObjectRef(obj.id)];
        }
      }
    }
  }

  lemma CommandsActionsSnoc(cmds: seq<string>, c: string, parse: string -> Option<CommandData>)
    ensures CommandsActions(cmds + [c], parse) == CommandsActions(cmds, parse) + CommandActions(parse(c))
  {
    CommandsActionsAppend(cmds, [c], parse);
    assert [c][1..] == [];
    assert CommandsActions([c], parse) == CommandActions(parse(c)) + [];
  }

  /** Appending one more line. */
  lemma JoinLinesSnoc(ls: seq<string>, line: string)
    ensures JoinLines(ls + [line]) == JoinLines(ls) + line + "\n"
  {
    JoinLinesAppend(ls, [line]);
    assert [line][1..] == [];
    assert JoinLines([line]) == line + "\n" + [];
  }

  /** One more read continues the cut of what was read before. */
  lemma ReceiveStep(chunks: seq<string>, i: int, lines: seq<string>, rest: string, cut: seq<string>, rest': string)
    requires 0 <= i < |chunks|
    requires CutSoFar(Concat(chunks[..i]), lines, rest)
    requires CutSoFar(rest + chunks[i], cut, rest')
    ensures CutSoFar(Concat(chunks[..i + 1]), lines + cut, rest')
  {
    ConcatSnoc(chunks, i);
    JoinLinesAppend(lines, cut);
    LinesAppend(lines, cut);
    assert JoinLines(lines + cut) + rest' == JoinLines(lines) + (JoinLines(cut) + rest');
  }

  /** All the texts of `parts`, in order. */
  function Concat(parts: seq<string>): string
  {
    if parts == [] then [] else Concat(parts[..|parts| - 1]) + parts[|parts| - 1]
  }

  lemma ConcatSnoc(parts: seq<string>, i: int)
    requires 0 <= i < |parts|
    ensures Concat(parts[..i + 1]) == Concat(parts[..i]) + parts[i]
  {
    assert parts[..i + 1][..i] == parts[..i];
  }

  /** Joining two runs of lines. */
  lemma {:induction false} JoinLinesAppend(a: seq<string>, b: seq<string>)
    ensures JoinLines(a + b) == JoinLines(a) + JoinLines(b)
    decreases |a|
  {
    if a == [] {
      assert a + b == b;
    } else {
      assert (a + b)[1..] == a[1..] + b;
      JoinLinesAppend(a[1..], b);
    }
  }

  /** Splitting more text continues from the unterminated rest: cutting chunk by chunk gives the
      lines of the whole text. */
  lemma SplitLinesAppend(a: string, b: string)
    ensures SplitLines(a + b) == (SplitLines(a).0 + SplitLines(SplitLines(a).1 + b).0, SplitLines(SplitLines(a).1 + b).1)
  {
    var first := SplitLines(a);
    var second := SplitLines(first.1 + b);
    var ls := first.0 + second.0;
    Rejoin(first.0, first.1, second.0, second.1, a, b);
    LinesAppend(first.0, second.0);
    SplitLinesUnique(ls, second.1);
  }

  /** The lines of `a`, then those of its rest followed by `b`, rebuild `a + b`. */
  lemma Rejoin(ls1: seq<string>, rest1: string, ls2: seq<string>, rest2: string, a: string, b: string)
    requires JoinLines(ls1) + rest1 == a
    requires JoinLines(ls2) + rest2 == rest1 + b
    ensures JoinLines(ls1 + ls2) + rest2 == a + b
  {
    JoinLinesAppend(ls1, ls2);
    calc {
      JoinLines(ls1 + ls2) + rest2;
      JoinLines(ls1) + (JoinLines(ls2) + rest2);
      JoinLines(ls1) + (rest1 + b);
      (JoinLines(ls1) + rest1) + b;
    }
  }

  /** Two runs of lines without line feeds make one. */
  lemma LinesAppend(a: seq<string>, b: seq<string>)
    requires forall i :: 0 <= i < |a| ==> '\n' !in a[i]
    requires forall i :: 0 <= i < |b| ==> '\n' !in b[i]
    ensures forall i :: 0 <= i < |a + b| ==> '\n' !in (a + b)[i]
  {
    forall i | 0 <= i < |a + b| ensures '\n' !in (a + b)[i] {
      if i < |a| {
        assert (a + b)[i] == a[i];
      } else {
        assert (a + b)[i] == b[i - |a|];
      }
    }
  }

  lemma {:induction false} CommandsActionsAppend(a: seq<string>, b: seq<string>, parse: string -> Option<CommandData>)
    ensures CommandsActions(a + b, parse) == CommandsActions(a, parse) + CommandsActions(b, parse)
    decreases |a|
  {
    if a == [] {
      assert a + b == b;
    } else {
      assert (a + b)[1..] == a[1..] + b;
      CommandsActionsAppend(a[1..], b, parse);
    }
  }
}
