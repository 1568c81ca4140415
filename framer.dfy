/** The relay's brace-depth stream framer (unity-debugger/server.js, the TCP `data` handler).

    Each TCP connection keeps a text buffer, a signed brace depth and an "in a message" flag
    across `data` events. On every event the chunk is appended and the WHOLE buffer is scanned
    again from index 0; a `}` that brings the depth to exactly 0 while a message is open emits
    the text from the message's first `{` to that `}` and drops everything up to it. Braces
    inside JSON string literals are counted like any other brace. */
module Framer {

  import opened Text

  /** The buffer is cleared when it is longer than this after a scan. */
  const MaxBuffer := 1000000

  /** The scanner's variables: the buffer, `messageDepth`, `isInMessage`, `startIndex`, and the
      frames emitted so far, oldest first. */
  datatype Scan = Scan(buffer: string, depth: int, inMessage: bool, start: nat, frames: seq<string>)

  /** Depth change caused by one character. */
  function Delta(c: char): int
  {
    if c == '{' then 1 else if c == '}' then -1 else 0
  }

  /** Net brace depth of a text: its `{` count minus its `}` count. */
  function Depth(s: string): int
  {
    if s == [] then 0 else Depth(s[..|s| - 1]) + Delta(s[|s| - 1])
  }

  lemma {:induction false} DepthAppend(a: string, b: string)
    ensures Depth(a + b) == Depth(a) + Depth(b)
    decreases |b|
  {
    if b == [] {
      assert a + b == a;
    } else {
      assert (a + b)[..|a + b| - 1] == a + b[..|b| - 1];
      DepthAppend(a, b[..|b| - 1]);
    }
  }

  predicate NoOpen(s: string)
  {
    forall k :: 0 <= k < |s| ==> s[k] != '{'
  }

  predicate NoClose(s: string)
  {
    forall k :: 0 <= k < |s| ==> s[k] != '}'
  }

  predicate IsSuffix(a: string, b: string)
  {
    |a| <= |b| && b[|b| - |a|..] == a
  }

  /** The `for` loop of the `data` handler from index `i` of `buf`, with depth, flag and start
      index as given and `acc` emitted so far. An emitted frame removes the buffer up to and
      including its `}` and restarts the scan at index 0 (the `i = -1` reset). */
  function ScanFrom(buf: string, i: nat, depth: int, inMsg: bool, start: nat, acc: seq<string>): (r: Scan)
    requires i <= |buf|
    requires inMsg ==> start <= i
    decreases |buf|, |buf| - i
    ensures |r.frames| >= |acc| && r.frames[..|acc|] == acc
    ensures r.inMessage ==> r.start <= |r.buffer|
  {
    if i == |buf| then
      Scan(buf, depth, inMsg, start, acc)
    else if buf[i] == '{' then
      if !inMsg then ScanFrom(buf, i + 1, depth + 1, true, i, acc)
      else ScanFrom(buf, i + 1, depth + 1, true, start, acc)
    else if buf[i] == '}' then
      if depth - 1 == 0 && inMsg then
        ScanFrom(buf[i + 1..], 0, 0, false, start, acc + [buf[start..i + 1]])
      else
        ScanFrom(buf, i + 1, depth - 1, inMsg, start, acc)
    else
      ScanFrom(buf, i + 1, depth, inMsg, start, acc)
  }

  /** A step of the scan that cuts nothing. */
  lemma Advance(buf: string, i: nat, depth: int, inMsg: bool, start: nat, acc: seq<string>)
    requires i < |buf| && (inMsg ==> start <= i)
    requires !(buf[i] == '}' && depth - 1 == 0 && inMsg)
    ensures ScanFrom(buf, i, depth, inMsg, start, acc)
      == ScanFrom(buf, i + 1, depth + Delta(buf[i]), inMsg || buf[i] == '{', if buf[i] == '{' && !inMsg then i else start, acc)
  {
  }

  /** What a scan leaves is a suffix of the buffer, and the same buffer exactly when nothing
      was cut. */
  lemma {:induction false} ScanSuffix(buf: string, i: nat, depth: int, inMsg: bool, start: nat, acc: seq<string>)
    requires i <= |buf| && (inMsg ==> start <= i)
    decreases |buf|, |buf| - i
    ensures var r := ScanFrom(buf, i, depth, inMsg, start, acc);
      IsSuffix(r.buffer, buf) && (|r.frames| == |acc| <==> r.buffer == buf)
  {
    if i < |buf| {
      if buf[i] == '}' && depth - 1 == 0 && inMsg {
        ScanSuffix(buf[i + 1..], 0, 0, false, start, acc + [buf[start..i + 1]]);
      } else {
        Advance(buf, i, depth, inMsg, start, acc);
        ScanSuffix(buf, i + 1, depth + Delta(buf[i]), inMsg || buf[i] == '{', if buf[i] == '{' && !inMsg then i else start, acc);
      }
    }
  }

  /** Every frame from index `n` on ends with `}`. */
  ghost predicate ClosedFrom(frames: seq<string>, n: nat)
  {
    forall k :: n <= k < |frames| ==> |frames[k]| > 0 && frames[k][|frames[k]| - 1] == '}'
  }

  /** Every frame a scan cuts ends with the `}` that closed it. */
  lemma {:induction false} ScanClosed(buf: string, i: nat, depth: int, inMsg: bool, start: nat, acc: seq<string>)
    requires i <= |buf| && (inMsg ==> start <= i)
    decreases |buf|, |buf| - i
    ensures ClosedFrom(ScanFrom(buf, i, depth, inMsg, start, acc).frames, |acc|)
  {
    if i < |buf| {
      if buf[i] == '}' && depth - 1 == 0 && inMsg {
        var f := buf[start..i + 1];
        ScanClosed(buf[i + 1..], 0, 0, false, start, acc + [f]);
        var r := ScanFrom(buf[i + 1..], 0, 0, false, start, acc + [f]);
        assert ClosedFrom(r.frames, |acc| + 1);
        assert ScanFrom(buf, i, depth, inMsg, start, acc) == r;
        assert r.frames[..|acc| + 1] == acc + [f];
        assert r.frames[|acc|] == f;
        assert |f| == i + 1 - start && f[|f| - 1] == buf[i];
      } else {
        Advance(buf, i, depth, inMsg, start, acc);
        ScanClosed(buf, i + 1, depth + Delta(buf[i]), inMsg || buf[i] == '{', if buf[i] == '{' && !inMsg then i else start, acc);
      }
    }
  }

  /** A scan that is inside a message, or outside one with no positive depth and no `{` seen,
      ends inside a message or outside one with no positive depth and no `{` left. */
  lemma {:induction false} ScanOutside(buf: string, i: nat, depth: int, inMsg: bool, start: nat, acc: seq<string>)
    requires i <= |buf| && (inMsg ==> start <= i)
    requires inMsg || (depth <= 0 && NoOpen(buf[..i]))
    decreases |buf|, |buf| - i
    ensures var r := ScanFrom(buf, i, depth, inMsg, start, acc);
      r.inMessage || (r.depth <= 0 && NoOpen(r.buffer))
  {
    if i == |buf| {
      assert buf[..i] == buf;
    } else if buf[i] == '}' && depth - 1 == 0 && inMsg {
      assert buf[i + 1..][..0] == [];
      ScanOutside(buf[i + 1..], 0, 0, false, start, acc + [buf[start..i + 1]]);
    } else {
      assert buf[..i + 1] == buf[..i] + [buf[i]];
      Advance(buf, i, depth, inMsg, start, acc);
      ScanOutside(buf, i + 1, depth + Delta(buf[i]), inMsg || buf[i] == '{', if buf[i] == '{' && !inMsg then i else start, acc);
    }
  }

  /** The three together, for a scan of a whole buffer. */
  lemma ScanFacts(buf: string, depth: int, inMsg: bool, acc: seq<string>)
    ensures var r := ScanFrom(buf, 0, depth, inMsg, 0, acc);
      && IsSuffix(r.buffer, buf)
      && (|r.frames| == |acc| <==> r.buffer == buf)
      && ClosedFrom(r.frames, |acc|)
      && ((inMsg || depth <= 0) ==> (r.inMessage || (r.depth <= 0 && NoOpen(r.buffer))))
  {
    ScanSuffix(buf, 0, depth, inMsg, 0, acc);
    ScanClosed(buf, 0, depth, inMsg, 0, acc);
    if inMsg || depth <= 0 {
      assert buf[..0] == [];
      ScanOutside(buf, 0, depth, inMsg, 0, acc);
    }
  }

  /** One `data` event as the relay runs it: append the chunk, rescan the whole buffer from
      index 0 with `startIndex` reset to 0, then apply the overflow valve. */
  function Event(buffer: string, depth: int, inMessage: bool, chunk: string): (r: Scan)
    ensures |r.buffer| <= MaxBuffer
    ensures IsSuffix(r.buffer, buffer + chunk)
    ensures (inMessage || depth <= 0) ==> (r.inMessage || (r.depth <= 0 && NoOpen(r.buffer)))
  {
    var s := ScanFrom(buffer + chunk, 0, depth, inMessage, 0, []);
    ScanFacts(buffer + chunk, depth, inMessage, []);
    if |s.buffer| > MaxBuffer then Scan([], 0, false, 0, s.frames)
    else s.(start := 0)
  }

  /** Per-connection framing state of the relay (`buffer`, `messageDepth`, `isInMessage`). */
  class StreamFramer {
    var buffer: string
    var messageDepth: int
    var isInMessage: bool

    /** Between events the buffer is within the ceiling, and outside a message the depth is
        never positive and the buffer holds no `{`. */
    ghost predicate Valid()
      reads this
    {
      |buffer| <= MaxBuffer && (!isInMessage ==> messageDepth <= 0 && NoOpen(buffer))
    }

    constructor ()
      ensures Valid()
      ensures buffer == [] && messageDepth == 0 && !isInMessage
    {
      buffer := [];
      messageDepth := 0;
      isInMessage := false;
    }

    /** The `data` handler. Returns the frames it cut out, in the order they were found; the
        relay parses and handles each one in that order. */
    method OnData(chunk: string) returns (frames: seq<string>)
      requires Valid()
      modifies this
      ensures Valid()
      ensures var e := Event(old(buffer), old(messageDepth), old(isInMessage), chunk);
        buffer == e.buffer && messageDepth == e.depth && isInMessage == e.inMessage && frames == e.frames
    {
      buffer := buffer + chunk;
      ghost var whole, depth0, inMsg0 := buffer, messageDepth, isInMessage;
      var startIndex: nat := 0;
      frames := [];
      var i: int := 0;
      while i < |buffer|
        invariant 0 <= i <= |buffer|
        invariant isInMessage ==> startIndex <= i
        invariant ScanFrom(buffer, i, messageDepth, isInMessage, startIndex, frames)
               == ScanFrom(whole, 0, depth0, inMsg0, 0, [])
        decreases |buffer|, |buffer| - i
      {
        if buffer[i] == '{' {
          if !isInMessage {
            isInMessage := true;
            startIndex := i;
          }
          messageDepth := messageDepth + 1;
        } else if buffer[i] == '}' {
          messageDepth := messageDepth - 1;
          if messageDepth == 0 && isInMessage {
            var messageStr := buffer[startIndex..i + 1];
            frames := frames + [messageStr];
            buffer := buffer[i + 1..];
            i := -1;
            isInMessage := false;
          }
        }
        i := i + 1;
      }
      ScanFacts(whole, depth0, inMsg0, []);
      if |buffer| > MaxBuffer {
        buffer := [];
        messageDepth := 0;
        isInMessage := false;
      }
    }
  }

  /** Outside a message, text without `{` emits nothing: every `}` in it only lowers the
      depth, below 0 if need be. */
  lemma {:induction false} StrayCloses(buf: string, i: nat, depth: int, start: nat, acc: seq<string>)
    requires i <= |buf| && NoOpen(buf[i..])
    ensures ScanFrom(buf, i, depth, false, start, acc) == Scan(buf, depth - Count(buf[i..], '}'), false, start, acc)
    decreases |buf| - i
  {
    if i < |buf| {
      assert buf[i..][0] == buf[i] && buf[i..][1..] == buf[i + 1..];
      var rest, tail := buf[i..], buf[i + 1..];
      assert NoOpen(tail) by {
        forall k | 0 <= k < |tail| ensures tail[k] != '{' {
          assert tail[k] == rest[k + 1];
        }
      }
      StrayCloses(buf, i + 1, depth + Delta(buf[i]), start, acc);
    } else {
      assert buf[i..] == [];
    }
  }

  /** The overflow valve: a scan that leaves more than `MaxBuffer` characters empties the
      buffer and forgets the depth and the open message; otherwise the scan's state is kept. */
  lemma OverflowResets(buffer: string, depth: int, inMessage: bool, chunk: string)
    ensures var s := ScanFrom(buffer + chunk, 0, depth, inMessage, 0, []);
      var r := Event(buffer, depth, inMessage, chunk);
      && r.frames == s.frames
      && (|s.buffer| > MaxBuffer ==> r.buffer == [] && r.depth == 0 && !r.inMessage)
      && (|s.buffer| <= MaxBuffer ==> r.buffer == s.buffer && r.depth == s.depth && r.inMessage == s.inMessage)
  {
  }

  // ---------------------------------------------------------------------------------------
  // What one scan emits, when it starts outside a message.

  /** `junk + frame` is one stretch the scanner consumes when it enters it outside a message at
      depth `entry`: no `{` before the frame, the frame opens with `{`, closes with the `}` that
      brings the depth to exactly 0, and no earlier `}` inside the frame did so. */
  ghost predicate Delimits(entry: int, junk: string, frame: string)
  {
    var seg := junk + frame;
    && NoOpen(junk)
    && |frame| > 0 && frame[0] == '{' && frame[|frame| - 1] == '}'
    && entry + Depth(seg) == 0
    && forall n :: |junk| < n < |seg| - 1 && seg[n] == '}' ==> entry + Depth(seg[..n + 1]) != 0
  }

  /** Frames cut one after another: the first entered at depth `entry`, every later one at
      depth 0 (the depth right after an emitted frame). */
  ghost predicate Segments(entry: int, junk: seq<string>, frames: seq<string>)
    decreases |junk|
  {
    |junk| == |frames| &&
    (junk != [] ==> Delimits(entry, junk[0], frames[0]) && Segments(0, junk[1..], frames[1..]))
  }

  /** The consumed text: each frame preceded by the junk dropped in front of it. */
  function Interleave(junk: seq<string>, frames: seq<string>): string
    requires |junk| == |frames|
    decreases |junk|
  {
    if junk == [] then [] else junk[0] + frames[0] + Interleave(junk[1..], frames[1..])
  }

  /** The state in the middle of a scan that began outside a message at depth `entry`. */
  ghost predicate MidScan(buf: string, i: nat, depth: int, inMsg: bool, start: nat, entry: int)
  {
    && i <= |buf|
    && depth == entry + Depth(buf[..i])
    && (!inMsg ==> NoOpen(buf[..i]))
    && (inMsg ==>
          && start < i && buf[start] == '{' && NoOpen(buf[..start])
          && forall n :: start < n < i && buf[n] == '}' ==> entry + Depth(buf[..n + 1]) != 0)
  }

  lemma {:induction false} ScanSegments(buf: string, i: nat, depth: int, inMsg: bool, start: nat, acc: seq<string>, entry: int)
    returns (junk: seq<string>)
    requires MidScan(buf, i, depth, inMsg, start, entry)
    ensures var r := ScanFrom(buf, i, depth, inMsg, start, acc);
      Segments(entry, junk, r.frames[|acc|..]) && buf == Interleave(junk, r.frames[|acc|..]) + r.buffer
    decreases |buf|, |buf| - i, 1
  {
    if i == |buf| {
      var r := ScanFrom(buf, i, depth, inMsg, start, acc);
      assert r.frames[|acc|..] == [];
      junk := [];
    } else if buf[i] == '}' && depth - 1 == 0 && inMsg {
      junk := EmitSegment(buf, i, depth, start, acc, entry);
    } else {
      var depth', inMsg', start' := MidStep(buf, i, depth, inMsg, start, acc, entry);
      junk := ScanSegments(buf, i + 1, depth', inMsg', start', acc, entry);
    }
  }

  /** A step of the scan that cuts nothing keeps the scan in the middle of its stretch. */
  lemma MidStep(buf: string, i: nat, depth: int, inMsg: bool, start: nat, acc: seq<string>, entry: int)
    returns (depth': int, inMsg': bool, start': nat)
    requires MidScan(buf, i, depth, inMsg, start, entry)
    requires i < |buf| && !(buf[i] == '}' && depth - 1 == 0 && inMsg)
    ensures inMsg' ==> start' <= i + 1
    ensures ScanFrom(buf, i, depth, inMsg, start, acc) == ScanFrom(buf, i + 1, depth', inMsg', start', acc)
    ensures MidScan(buf, i + 1, depth', inMsg', start', entry)
  {
    assert buf[..i + 1] == buf[..i] + [buf[i]];
    assert Depth(buf[..i + 1]) == Depth(buf[..i]) + Delta(buf[i]);
    depth' := depth + Delta(buf[i]);
    inMsg' := inMsg || buf[i] == '{';
    start' := if buf[i] == '{' && !inMsg then i else start;
  }

  /** The step of `ScanSegments` where a frame is cut. */
  lemma {:induction false} EmitSegment(buf: string, i: nat, depth: int, start: nat, acc: seq<string>, entry: int)
    returns (junk: seq<string>)
    requires MidScan(buf, i, depth, true, start, entry)
    requires i < |buf| && buf[i] == '}' && depth - 1 == 0
    ensures var r := ScanFrom(buf, i, depth, true, start, acc);
      Segments(entry, junk, r.frames[|acc|..]) && buf == Interleave(junk, r.frames[|acc|..]) + r.buffer
    decreases |buf|, |buf| - i, 0
  {
    var frame := buf[start..i + 1];
    var rest := buf[i + 1..];
    assert buf == buf[..start] + frame + rest;
    var r := ScanFrom(rest, 0, 0, false, start, acc + [frame]);
    assert ScanFrom(buf, i, depth, true, start, acc) == r;
    assert MidScan(rest, 0, 0, false, start, 0) by {
      assert rest[..0] == [];
    }
    var junk' := ScanSegments(rest, 0, 0, false, start, acc + [frame], 0);
    FrameDelimits(buf, i, depth, start, entry);
    SplitOff(r.frames, acc, frame);
    junk := [buf[..start]] + junk';
    var tail := r.frames[|acc| + 1..];
    ConsSegment(entry, buf[..start], frame, junk', tail);
    assert r.frames[|acc|..] == [frame] + tail;
    assert Segments(entry, junk, r.frames[|acc|..]);
    assert Interleave(junk, r.frames[|acc|..]) == buf[..start] + frame + Interleave(junk', tail);
    var x := Interleave(junk', tail);
    assert rest == x + r.buffer;
    assert Interleave(junk, r.frames[|acc|..]) == buf[..start] + frame + x;
    Glue(buf, buf[..start], frame, rest, x, r.buffer);
  }

  lemma Glue(buf: string, j0: string, frame: string, rest: string, x: string, b: string)
    requires buf == j0 + frame + rest && rest == x + b
    ensures buf == (j0 + frame + x) + b
  {
  }

  lemma SplitOff(all: seq<string>, acc: seq<string>, frame: string)
    requires |all| >= |acc| + 1 && all[..|acc| + 1] == acc + [frame]
    ensures all[|acc|..] == [frame] + all[|acc| + 1..]
    ensures all[|acc + [frame]|..] == all[|acc| + 1..]
  {
    assert all[|acc|] == (acc + [frame])[|acc|];
  }

  lemma ConsSegment(entry: int, j0: string, f: string, junk: seq<string>, frames: seq<string>)
    requires Delimits(entry, j0, f) && Segments(0, junk, frames)
    ensures Segments(entry, [j0] + junk, [f] + frames)
    ensures Interleave([j0] + junk, [f] + frames) == j0 + f + Interleave(junk, frames)
  {
    assert ([j0] + junk)[1..] == junk;
    assert ([f] + frames)[1..] == frames;
  }

  lemma FrameDelimits(buf: string, i: nat, depth: int, start: nat, entry: int)
    requires MidScan(buf, i, depth, true, start, entry)
    requires i < |buf| && buf[i] == '}' && depth - 1 == 0
    ensures Delimits(entry, buf[..start], buf[start..i + 1])
  {
    var junk0, frame := buf[..start], buf[start..i + 1];
    var seg := junk0 + frame;
    assert seg == buf[..i + 1];
    assert buf[..i + 1] == buf[..i] + [buf[i]];
    assert Depth(buf[..i + 1]) == Depth(buf[..i]) + Delta(buf[i]);
    forall n | |junk0| < n < |seg| - 1 && seg[n] == '}'
      ensures entry + Depth(seg[..n + 1]) != 0
    {
      assert seg[..n + 1] == buf[..n + 1];
    }
  }

  /** One `data` event that begins outside a message at depth `depth` (before the overflow
      valve): the frames are cut left to right, each preceded only by `{`-free junk, each from
      its opening `{` to the `}` that returns the depth to 0; what is left is the unconsumed
      tail of the buffer. */
  lemma FramesDelimited(buf: string, depth: int)
    ensures var r := ScanFrom(buf, 0, depth, false, 0, []);
      exists junk :: Segments(depth, junk, r.frames) && buf == Interleave(junk, r.frames) + r.buffer
  {
    assert buf[..0] == [];
    assert MidScan(buf, 0, depth, false, 0, depth);
    var junk := ScanSegments(buf, 0, depth, false, 0, [], depth);
    var r := ScanFrom(buf, 0, depth, false, 0, []);
    assert r.frames[0..] == r.frames;
  }

  /** A frame balanced in the usual sense: net depth 0 and every proper prefix still open. */
  ghost predicate Balanced(f: string)
  {
    Depth(f) == 0 && forall n :: 0 < n < |f| ==> Depth(f[..n]) > 0
  }

  /** A frame entered at depth 0 with no stray `}` in front of it is balanced. */
  lemma BalancedFrame(junk: string, frame: string)
    requires Delimits(0, junk, frame)
    requires NoClose(junk)
    ensures Balanced(frame)
  {
    var seg := junk + frame;
    assert Depth(junk) == 0 by { JunkDepth(junk); }
    DepthAppend(junk, frame);
    forall n | 0 < n < |frame|
      ensures Depth(frame[..n]) > 0
    {
      PrefixOpen(junk, frame, n);
    }
  }

  lemma {:induction false} JunkDepth(s: string)
    requires NoOpen(s) && NoClose(s)
    ensures Depth(s) == 0
    decreases |s|
  {
    if s != [] {
      JunkDepth(s[..|s| - 1]);
    }
  }

  lemma {:induction false} PrefixOpen(junk: string, frame: string, n: nat)
    requires Delimits(0, junk, frame) && Depth(junk) == 0
    requires 0 < n < |frame|
    ensures Depth(frame[..n]) > 0
    decreases n
  {
    if n == 1 {
      assert frame[..1] == [] + [frame[0]];
      assert frame[..1][..0] == [];
    } else {
      PrefixOpen(junk, frame, n - 1);
      assert frame[..n][..n - 1] == frame[..n - 1];
      if frame[n - 1] == '}' {
        var seg := junk + frame;
        assert seg[..|junk| + n] == junk + frame[..n];
        DepthAppend(junk, frame[..n]);
        assert seg[|junk| + n - 1] == '}';
      }
    }
  }

  // ---------------------------------------------------------------------------------------
  // The rescan at the start of every event, and a scanner that resumes instead.

  /** One step of the scan over a `{`. */
  lemma StepOpen(buf: string, i: nat, depth: int, inMsg: bool, start: nat, acc: seq<string>)
    requires i < |buf| && buf[i] == '{' && (inMsg ==> start <= i)
    ensures ScanFrom(buf, i, depth, inMsg, start, acc)
      == ScanFrom(buf, i + 1, depth + 1, true, if inMsg then start else i, acc)
  {
  }

  /** One step of the scan over a `}` that closes the open message. */
  lemma StepEmit(buf: string, i: nat, start: nat, acc: seq<string>)
    requires i < |buf| && buf[i] == '}' && start <= i
    ensures ScanFrom(buf, i, 1, true, start, acc)
      == ScanFrom(buf[i + 1..], 0, 0, false, start, acc + [buf[start..i + 1]])
  {
  }

  /** One step of the scan over a `}` that does not close a message. */
  lemma StepClose(buf: string, i: nat, depth: int, inMsg: bool, start: nat, acc: seq<string>)
    requires i < |buf| && buf[i] == '}' && (inMsg ==> start <= i) && !(depth - 1 == 0 && inMsg)
    ensures ScanFrom(buf, i, depth, inMsg, start, acc) == ScanFrom(buf, i + 1, depth - 1, inMsg, start, acc)
  {
  }

  /** `"{}"` in one piece is one frame. */
  lemma WholeMessage()
    ensures ScanFrom("{}", 0, 0, false, 0, []).frames == ["{}"]
  {
    var whole: string := "{}";
    assert whole[0] == '{' && whole[1] == '}';
    StepOpen(whole, 0, 0, false, 0, []);
    StepEmit(whole, 1, 0, []);
    assert whole[2..] == [] && whole[0..2] == whole;
  }

  /** As written, a message split over two events is never emitted: the second event rescans
      the `{` already counted by the first, so the depth never returns to 0. Sent in one piece
      the same text is one frame. */
  lemma SplitMessageLost()
    ensures Event([], 0, false, "{}").frames == ["{}"]
    ensures var first := Event([], 0, false, "{");
      && first.frames == [] && first.inMessage && first.depth == 1
      && Event(first.buffer, first.depth, first.inMessage, "}").frames == []
  {
    var whole: string := "{}";
    assert [] + whole == whole;
    WholeMessage();
    var sc := ScanFrom(whole, 0, 0, false, 0, []);
    EventUnfold([], 0, false, whole);
    assert Event([], 0, false, whole).frames == sc.frames;
    var first := FirstHalf();
    SecondHalf();
  }

  lemma EventUnfold(buffer: string, depth: int, inMessage: bool, chunk: string)
    ensures var s := ScanFrom(buffer + chunk, 0, depth, inMessage, 0, []);
      |s.buffer| <= MaxBuffer ==> Event(buffer, depth, inMessage, chunk) == s.(start := 0)
  {
  }

  lemma FirstHalf() returns (first: Scan)
    ensures first == Event([], 0, false, "{") && first == Scan("{", 1, true, 0, [])
  {
    var open: string := "{";
    assert [] + open == open;
    assert open[0] == '{';
    StepOpen(open, 0, 0, false, 0, []);
    var sc := ScanFrom(open, 0, 0, false, 0, []);
    assert sc == Scan(open, 1, true, 0, []);
    EventUnfold([], 0, false, open);
    assert sc.(start := 0) == sc;
    first := sc;
  }

  lemma SecondHalf()
    ensures Event("{", 1, true, "}").frames == []
  {
    var whole: string := "{}";
    assert "{" + "}" == whole;
    assert whole[0] == '{' && whole[1] == '}';
    StepOpen(whole, 0, 1, true, 0, []);
    StepClose(whole, 1, 2, true, 0, []);
    assert ScanFrom(whole, 2, 1, true, 0, []).frames == [];
  }

  /** The scanner the buffer-and-depth design calls for: the scan position and start index
      persist between events, so each chunk is scanned once. The state `s` is the scan that
      stopped at the end of `s.buffer`. */
  function FeedResumable(s: Scan, chunk: string): (r: Scan)
    requires s.inMessage ==> s.start <= |s.buffer|
    ensures |r.buffer| <= MaxBuffer
    ensures r.inMessage ==> r.start <= |r.buffer|
    ensures |r.frames| >= |s.frames| && r.frames[..|s.frames|] == s.frames
  {
    var t := ScanFrom(s.buffer + chunk, |s.buffer|, s.depth, s.inMessage, s.start, s.frames);
    if |t.buffer| > MaxBuffer then Scan([], 0, false, 0, t.frames) else t
  }

  /** Scanning `buf + x` is scanning `buf` and then carrying on over `x` from where it stopped. */
  lemma {:induction false} ScanAppend(buf: string, x: string, i: nat, depth: int, inMsg: bool, start: nat, acc: seq<string>)
    requires i <= |buf| && (inMsg ==> start <= i)
    ensures var r := ScanFrom(buf, i, depth, inMsg, start, acc);
      ScanFrom(buf + x, i, depth, inMsg, start, acc)
        == ScanFrom(r.buffer + x, |r.buffer|, r.depth, r.inMessage, r.start, r.frames)
    decreases |buf|, |buf| - i
  {
    if i < |buf| {
      assert (buf + x)[i] == buf[i];
      if buf[i] == '{' {
        ScanAppend(buf, x, i + 1, depth + 1, true, if inMsg then start else i, acc);
      } else if buf[i] == '}' {
        if depth - 1 == 0 && inMsg {
          assert (buf + x)[i + 1..] == buf[i + 1..] + x;
          assert (buf + x)[start..i + 1] == buf[start..i + 1];
          ScanAppend(buf[i + 1..], x, 0, 0, false, start, acc + [buf[start..i + 1]]);
        } else {
          ScanAppend(buf, x, i + 1, depth - 1, inMsg, start, acc);
        }
      } else {
        ScanAppend(buf, x, i + 1, depth, inMsg, start, acc);
      }
    }
  }

  /** With the resuming scanner, cutting the input into chunks changes nothing, as long as the
      buffer never reaches the ceiling in between. */
  lemma ChunkingInvariant(s: Scan, a: string, b: string)
    requires s.inMessage ==> s.start <= |s.buffer|
    requires |s.buffer| + |a| <= MaxBuffer
    ensures FeedResumable(FeedResumable(s, a), b) == FeedResumable(s, a + b)
  {
    var t := ScanFrom(s.buffer + a, |s.buffer|, s.depth, s.inMessage, s.start, s.frames);
    ScanSuffix(s.buffer + a, |s.buffer|, s.depth, s.inMessage, s.start, s.frames);
    assert |t.buffer| <= MaxBuffer;
    assert s.buffer + a + b == s.buffer + (a + b);
    ScanAppend(s.buffer + a, b, |s.buffer|, s.depth, s.inMessage, s.start, s.frames);
  }

  /** With the resuming scanner the split message of `SplitMessageLost` is emitted. */
  lemma SplitMessageKept()
    ensures var empty := Scan([], 0, false, 0, []);
      FeedResumable(FeedResumable(empty, "{"), "}").frames == ["{}"]
  {
    var empty := Scan([], 0, false, 0, []);
    var whole: string := "{}";
    assert "{" + "}" == whole;
    assert empty.buffer + whole == whole;
    WholeMessage();
    var t := ScanFrom(whole, 0, 0, false, 0, []);
    ScanFacts(whole, 0, false, []);
    assert |t.buffer| <= MaxBuffer;
    assert FeedResumable(empty, whole) == t;
    ChunkingInvariant(empty, "{", "}");
  }
}
