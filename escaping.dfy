/** The agent's hand-rolled escaping of log text (`HandleLog` in
    Assets/Scripts/UnityRemoteLogger.cs): five `Replace` calls, backslash first, covering a
    subset of the string escapes of section 7 of RFC 8259. */
module LogEscape {

  import opened Text

  /** The characters the chain rewrites. */
  predicate Special(c: char)
  {
    c == '\\' || c == '"' || c == '\n' || c == '\r' || c == '\t'
  }

  /** The replacement chain exactly as the agent applies it. */
  function Escape(s: string): string
  {
    Replace(Replace(Replace(Replace(Replace(s, '\\', "\\\\"), '"', "\\\""), '\n', "\\n"), '\r', "\\r"), '\t', "\\t")
  }

  /** `stackTrace` is escaped only when it is non-empty. */
  function EscapeStackTrace(st: string): string
  {
    if st == "" then st else Escape(st)
  }

  /** The escape of one character, as a reference for the chain. */
  function EscapeChar(c: char): (r: string)
    ensures Special(c) ==> |r| == 2 && r[0] == '\\'
    ensures !Special(c) ==> r == [c]
  {
    if c == '\\' then "\\\\"
    else if c == '"' then "\\\""
    else if c == '\n' then "\\n"
    else if c == '\r' then "\\r"
    else if c == '\t' then "\\t"
    else [c]
  }

  /** Every character escaped on its own, left to right. */
  function EscapeEach(s: string): string
  {
    if s == [] then [] else EscapeChar(s[0]) + EscapeEach(s[1..])
  }

  /** The reading an escape-aware decoder gives a two-character escape. */
  function DecodeEscape(c: char): char
  {
    if c == 'n' then '\n' else if c == 'r' then '\r' else if c == 't' then '\t' else c
  }

  /** Undo the escapes: `\\`, `\"`, `\n`, `\r`, `\t` become the character they stand for. */
  function Unescape(t: string): string
    decreases |t|
  {
    if t == [] then []
    else if |t| >= 2 && t[0] == '\\' && (t[1] == '\\' || t[1] == '"' || t[1] == 'n' || t[1] == 'r' || t[1] == 't')
    then [DecodeEscape(t[1])] + Unescape(t[2..])
    else [t[0]] + Unescape(t[1..])
  }

  /** The chain on a single character. */
  lemma EscapeOne(c: char)
    ensures Escape([c]) == EscapeChar(c)
  {
    var s1 := Replace([c], '\\', "\\\\");
    ReplaceOne(c, '\\', "\\\\");
    var s2 := Replace(s1, '"', "\\\"");
    Step(s1, '"', "\\\"");
    var s3 := Replace(s2, '\n', "\\n");
    Step(s2, '\n', "\\n");
    var s4 := Replace(s3, '\r', "\\r");
    Step(s3, '\r', "\\r");
    Step(s4, '\t', "\\t");
  }

  /** One replacement applied to a one-character text. */
  lemma ReplaceOne(c: char, x: char, rep: string)
    ensures Replace([c], x, rep) == if c == x then rep else [c]
  {
    assert [c][1..] == [];
  }

  /** A replacement step on the text of a single escape. */
  lemma Step(s: string, x: char, rep: string)
    requires |s| == 1 || (|s| == 2 && s[0] == '\\' && s[1] != x)
    requires x != '\\'
    ensures |s| == 1 ==> Replace(s, x, rep) == if s[0] == x then rep else s
    ensures |s| == 2 ==> Replace(s, x, rep) == s
  {
    if |s| == 1 {
      assert s == [s[0]];
      ReplaceOne(s[0], x, rep);
    } else {
      assert s[1..] == [s[1]];
      ReplaceOne(s[1], x, rep);
    }
  }

  /** Because the backslash is replaced first, the chain never re-escapes a backslash it has
      just inserted: it is the same as escaping each character on its own. */
  lemma {:induction false} EscapeIsPerChar(s: string)
    ensures Escape(s) == EscapeEach(s)
    decreases |s|
  {
    if s != [] {
      var h, t := [s[0]], s[1..];
      assert s == h + t;
      ReplaceAppend(h, t, '\\', "\\\\");
      var s1, t1 := Replace(h, '\\', "\\\\"), Replace(t, '\\', "\\\\");
      ReplaceAppend(s1, t1, '"', "\\\"");
      var s2, t2 := Replace(s1, '"', "\\\""), Replace(t1, '"', "\\\"");
      ReplaceAppend(s2, t2, '\n', "\\n");
      var s3, t3 := Replace(s2, '\n', "\\n"), Replace(t2, '\n', "\\n");
      ReplaceAppend(s3, t3, '\r', "\\r");
      var s4, t4 := Replace(s3, '\r', "\\r"), Replace(t3, '\r', "\\r");
      ReplaceAppend(s4, t4, '\t', "\\t");
      assert Escape(s) == Escape(h) + Escape(t);
      EscapeOne(s[0]);
      EscapeIsPerChar(t);
    }
  }

  /** Unescaping gives back the original text. */
  lemma {:induction false} UnescapeEscape(s: string)
    ensures Unescape(Escape(s)) == s
  {
    EscapeIsPerChar(s);
    UnescapeEach(s);
  }

  lemma {:induction false} UnescapeEach(s: string)
    ensures Unescape(EscapeEach(s)) == s
    decreases |s|
  {
    if s != [] {
      var e, rest := EscapeChar(s[0]), EscapeEach(s[1..]);
      assert EscapeEach(s) == e + rest;
      if Special(s[0]) {
        assert (e + rest)[2..] == rest;
      } else {
        assert (e + rest)[1..] == rest;
      }
      UnescapeEach(s[1..]);
    }
  }

  /** The escaped text holds no raw line feed, carriage return or tab. */
  lemma NoRawControls(s: string)
    ensures '\n' !in Escape(s) && '\r' !in Escape(s) && '\t' !in Escape(s)
  {
    NoRawControlsEach(s);
    EscapeIsPerChar(s);
  }

  lemma {:induction false} NoRawControlsEach(s: string)
    ensures '\n' !in EscapeEach(s) && '\r' !in EscapeEach(s) && '\t' !in EscapeEach(s)
    decreases |s|
  {
    if s != [] {
      NoRawControlsEach(s[1..]);
    }
  }

  /** Text is left as it is exactly when it holds none of the five special characters. */
  lemma EscapeUnchanged(s: string)
    ensures Escape(s) == s <==> forall k :: 0 <= k < |s| ==> !Special(s[k])
  {
    EscapeIsPerChar(s);
    if forall k :: 0 <= k < |s| ==> !Special(s[k]) {
      EachUnchanged(s);
    } else {
      var k :| 0 <= k < |s| && Special(s[k]);
      EachGrows(s, k);
    }
  }

  lemma {:induction false} EachUnchanged(s: string)
    requires forall k :: 0 <= k < |s| ==> !Special(s[k])
    ensures EscapeEach(s) == s
    decreases |s|
  {
    if s != [] {
      var t := s[1..];
      assert forall k :: 0 <= k < |t| ==> !Special(t[k]) by {
        forall k | 0 <= k < |t| ensures !Special(t[k]) {
          assert t[k] == s[k + 1];
        }
      }
      EachUnchanged(t);
      assert !Special(s[0]);
      assert s == [s[0]] + t;
    }
  }

  /** A special character anywhere makes the escaped text longer. */
  lemma {:induction false} EachGrows(s: string, k: nat)
    requires k < |s| && Special(s[k])
    ensures |EscapeEach(s)| > |s|
    decreases k
  {
    EachLength(s[1..]);
    if k > 0 {
      assert s[1..][k - 1] == s[k];
      EachGrows(s[1..], k - 1);
    }
  }

  lemma {:induction false} EachLength(s: string)
    ensures |EscapeEach(s)| >= |s|
    decreases |s|
  {
    if s != [] {
      EachLength(s[1..]);
    }
  }
}
