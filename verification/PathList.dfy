/** Lists of paths in one string: separated by colons, with a backslash in front of a colon or a
    backslash that belongs to a path. */
module PathList {
  import opened Options

  predicate Special(c: char) {
    c == '\\' || c == ':'
  }

  // ----- writing -----

  function EscapeChar(c: char): string {
    if Special(c) then ['\\', c] else [c]
  }

  function Escape(s: string): string {
    if s == "" then "" else Escape(s[..|s| - 1]) + EscapeChar(s[|s| - 1])
  }

  function Join(paths: seq<string>): string
    requires paths != []
  {
    var last := |paths| - 1;
    if last == 0 then Escape(paths[0]) else Join(paths[..last]) + ":" + Escape(paths[last])
  }

  // ----- reading -----

  /** The list with a text added to its last element. */
  function AddToLast(paths: seq<string>, s: string): (r: seq<string>)
    requires paths != []
    ensures |r| == |paths|
  {
    paths[|paths| - 1 := paths[|paths| - 1] + s]
  }

  lemma AddNone(paths: seq<string>)
    requires paths != []
    ensures AddToLast(paths, "") == paths
  {
    assert paths[|paths| - 1] + "" == paths[|paths| - 1];
  }

  lemma AddTwice(paths: seq<string>, a: string, b: string)
    requires paths != []
    ensures AddToLast(AddToLast(paths, a), b) == AddToLast(paths, a + b)
  {
    var x := paths[|paths| - 1];
    assert (x + a) + b == x + (a + b);
  }

  /** A new element starts empty. */
  lemma AddToNew(front: seq<string>, s: string)
    ensures AddToLast(front + [""], s) == front + [s]
  {
    assert "" + s == s;
  }

  function ParseFrom(s: string, paths: seq<string>): Option<seq<string>>
    requires paths != []
    decreases |s|
  {
    if s == "" then Some(paths)
    else if s[0] == ':' then ParseFrom(s[1..], paths + [""])
    else if s[0] != '\\' then ParseFrom(s[1..], AddToLast(paths, [s[0]]))
    else if |s| > 1 && Special(s[1]) then ParseFrom(s[2..], AddToLast(paths, [s[1]]))
    else None
  }

  function Parse(s: string): Option<seq<string>> {
    ParseFrom(s, [""])
  }

  // ----- reading what was written -----

  lemma {:induction false} ParseEscaped(s: string, rest: string, paths: seq<string>)
    requires paths != []
    ensures ParseFrom(Escape(s) + rest, paths) == ParseFrom(rest, AddToLast(paths, s))
    decreases s
  {
    if s == "" {
      assert Escape(s) + rest == rest;
      AddNone(paths);
    } else {
      var front, c := s[..|s| - 1], s[|s| - 1];
      var rest' := EscapeChar(c) + rest;
      assert Escape(s) + rest == Escape(front) + rest';
      ParseEscaped(front, rest', paths);
      assert rest'[|EscapeChar(c)|..] == rest;
      assert front + [c] == s;
      AddTwice(paths, front, [c]);
    }
  }

  lemma {:induction false} ParseJoined(paths: seq<string>, rest: string)
    requires paths != []
    ensures ParseFrom(Join(paths) + rest, [""]) == ParseFrom(rest, paths)
    decreases paths
  {
    hide Escape;
    var last := |paths| - 1;
    if last == 0 {
      ParseEscaped(paths[0], rest, [""]);
      AddToNew([], paths[0]);
      assert [] + [""] == [""] && [] + [paths[0]] == paths;
    } else {
      var front, tail := paths[..last], ":" + (Escape(paths[last]) + rest);
      assert Join(paths) + rest == Join(front) + tail;
      ParseJoined(front, tail);
      assert tail[1..] == Escape(paths[last]) + rest;
      ParseEscaped(paths[last], rest, front + [""]);
      AddToNew(front, paths[last]);
      assert front + [paths[last]] == paths;
    }
  }

  lemma ReadWritten(paths: seq<string>)
    requires paths != []
    ensures Parse(Join(paths)) == Some(paths)
  {
    ParseJoined(paths, "");
    assert Join(paths) + "" == Join(paths);
  }

  // ----- writing what was read -----

  lemma JoinAdd(paths: seq<string>, c: char)
    requires paths != []
    ensures Join(AddToLast(paths, [c])) == Join(paths) + EscapeChar(c)
  {
    var last := |paths| - 1;
    var paths' := AddToLast(paths, [c]);
    assert (paths[last] + [c])[..|paths[last]|] == paths[last];
    assert paths'[..last] == paths[..last];
  }

  lemma JoinNew(paths: seq<string>)
    requires paths != []
    ensures Join(paths + [""]) == Join(paths) + ":"
  {
    assert (paths + [""])[..|paths|] == paths;
  }

  lemma {:induction false} WriteRead(s: string, paths: seq<string>)
    requires paths != []
    ensures var r := ParseFrom(s, paths);
      r.Some? ==> r.value != [] && Join(r.value) == Join(paths) + s
    decreases |s|
  {
    hide Join, AddToLast, Escape;
    if s == "" {
      assert Join(paths) + s == Join(paths);
    } else if s[0] == ':' {
      JoinNew(paths);
      WriteRead(s[1..], paths + [""]);
      assert ":" + s[1..] == s;
    } else if s[0] != '\\' {
      JoinAdd(paths, s[0]);
      WriteRead(s[1..], AddToLast(paths, [s[0]]));
      assert EscapeChar(s[0]) + s[1..] == s;
    } else if |s| > 1 && Special(s[1]) {
      JoinAdd(paths, s[1]);
      WriteRead(s[2..], AddToLast(paths, [s[1]]));
      assert EscapeChar(s[1]) + s[2..] == s;
    }
  }

  /** Reading and writing are inverse: a string is read as a list exactly when it is that list written. */
  lemma ReadIffWritten(s: string, paths: seq<string>)
    requires paths != []
    ensures Parse(s) == Some(paths) <==> s == Join(paths)
  {
    ReadWritten(paths);
    WriteRead(s, [""]);
    assert Join([""]) == "" && "" + s == s;
  }

  // ----- what cannot be read -----

  /** How many backslashes in a row come right before a position. */
  function RunBefore(s: string, i: nat): nat
    requires i <= |s|
  {
    if i == 0 || s[i - 1] != '\\' then 0 else 1 + RunBefore(s, i - 1)
  }

  /** A backslash that escapes (no odd run of others before it) and has nothing to escape after it. */
  predicate BadAt(s: string, i: nat)
    requires i < |s|
  {
    s[i] == '\\' && RunBefore(s, i) % 2 == 0 && (i + 1 == |s| || !Special(s[i + 1]))
  }

  predicate HasBadEscape(s: string) {
    exists i :: 0 <= i < |s| && BadAt(s, i)
  }

  /** Dropping a plain character, or an escaped one with its backslash, keeps the parity of the runs. */
  lemma {:induction false} SameParity(s: string, k: nat, i: nat)
    requires k <= i <= |s|
    requires (k == 1 && s[0] != '\\') || (k == 2 && s[0] == '\\')
    ensures RunBefore(s, i) % 2 == RunBefore(s[k..], i - k) % 2
    decreases i
  {
    if i > k {
      SameParity(s, k, i - 1);
      assert s[k..][i - k - 1] == s[i - 1];
    } else {
      assert RunBefore(s, 1) == if s[0] == '\\' then 1 else 0;
    }
  }

  lemma DropKeepsBad(s: string, k: nat)
    requires k <= |s| && ((k == 1 && s[0] != '\\') || (k == 2 && s[0] == '\\' && Special(s[1])))
    ensures HasBadEscape(s) <==> HasBadEscape(s[k..])
  {
    hide RunBefore;
    if HasBadEscape(s) {
      var i :| 0 <= i < |s| && BadAt(s, i);
      EarlyIsFine(s, k, i);
      SameParity(s, k, i);
      assert BadAt(s[k..], i - k);
    }
    if HasBadEscape(s[k..]) {
      var i :| 0 <= i < |s[k..]| && BadAt(s[k..], i);
      SameParity(s, k, i + k);
      assert BadAt(s, i + k);
    }
  }

  lemma EarlyIsFine(s: string, k: nat, i: nat)
    requires k <= |s| && ((k == 1 && s[0] != '\\') || (k == 2 && s[0] == '\\' && Special(s[1])))
    requires i < |s| && BadAt(s, i)
    ensures i >= k
  {
    assert RunBefore(s, 1) == if s[0] == '\\' then 1 else 0;
  }

  /** Reading fails exactly on a backslash at the end or in front of a character that cannot be escaped. */
  lemma {:induction false} FailsIff(s: string, paths: seq<string>)
    requires paths != []
    ensures ParseFrom(s, paths).None? <==> HasBadEscape(s)
    decreases |s|
  {
    hide BadAt, HasBadEscape;
    if s == "" {
      assert !HasBadEscape(s) by { NoneInNothing(s); }
    } else if s[0] != '\\' {
      DropKeepsBad(s, 1);
      FailsIff(s[1..], if s[0] == ':' then paths + [""] else AddToLast(paths, [s[0]]));
    } else if |s| > 1 && Special(s[1]) {
      DropKeepsBad(s, 2);
      FailsIff(s[2..], AddToLast(paths, [s[1]]));
    } else {
      FirstIsBad(s);
    }
  }

  lemma NoneInNothing(s: string)
    requires s == ""
    ensures !HasBadEscape(s)
  {
  }

  lemma FirstIsBad(s: string)
    requires s != "" && s[0] == '\\' && (|s| == 1 || !Special(s[1]))
    ensures HasBadEscape(s)
  {
    assert BadAt(s, 0);
  }

  lemma ParseFailsIff(s: string)
    ensures Parse(s).None? <==> HasBadEscape(s)
  {
    FailsIff(s, [""]);
  }

  // ----- the code -----

  method FindSpecial(s: string, start: nat) returns (end: nat)
    requires start <= |s|
    ensures start <= end <= |s| && (end < |s| ==> Special(s[end])) && forall i | start <= i < end :: !Special(s[i])
  {
    end := start;
    while end < |s| && !Special(s[end])
      invariant start <= end <= |s| && forall i | start <= i < end :: !Special(s[i])
    {
      end := end + 1;
    }
  }

  lemma {:induction false} ParsePlain(s: string, n: nat, paths: seq<string>)
    requires n <= |s| && paths != [] && forall i | 0 <= i < n :: !Special(s[i])
    ensures ParseFrom(s, paths) == ParseFrom(s[n..], AddToLast(paths, s[..n]))
    decreases n
  {
    if n == 0 {
      assert s[0..] == s && s[..0] == "";
      AddNone(paths);
    } else {
      ParsePlain(s[1..], n - 1, AddToLast(paths, [s[0]]));
      assert s[1..][n - 1..] == s[n..] && [s[0]] + s[1..][..n - 1] == s[..n];
      AddTwice(paths, [s[0]], s[1..][..n - 1]);
    }
  }

  /** From a cursor on, over the plain part and what stops it. */
  lemma ParseNext(s: string, start: nat, end: nat, paths: seq<string>)
    requires start <= end <= |s| && paths != [] && (end < |s| ==> Special(s[end]))
    requires forall i | start <= i < end :: !Special(s[i])
    ensures var r, paths' := ParseFrom(s[start..], paths), AddToLast(paths, s[start..end]);
      r ==
        if end == |s| then Some(paths')
        else if s[end] == ':' then ParseFrom(s[end + 1..], paths' + [""])
        else if end + 1 == |s| || !Special(s[end + 1]) then None
        else ParseFrom(s[end + 2..], AddToLast(paths', [s[end + 1]]))
  {
    hide AddToLast;
    var t := s[start..];
    ParsePlain(t, end - start, paths);
    assert t[end - start..] == s[end..] && t[..end - start] == s[start..end];
    assert end < |s| ==> s[end..][1..] == s[end + 1..];
    assert end + 1 < |s| ==> s[end..][2..] == s[end + 2..];
  }

  method StringArrayParse(s: string) returns (r: Option<seq<string>>)
    ensures r == Parse(s)
  {
    hide AddToLast, ParseFrom;
    var result, start := [""], 0;
    assert s[0..] == s;
    while true
      invariant 0 <= start <= |s| && result != [] && ParseFrom(s[start..], result) == Parse(s)
      decreases |s| - start
    {
      var end := FindSpecial(s, start);
      ParseNext(s, start, end, result);
      result := AddToLast(result, s[start..end]);
      if end == |s| { return Some(result); }
      if s[end] == ':' {
        result := result + [""];
      } else {
        end := end + 1;
        if end == |s| { return None; }
        if !Special(s[end]) { return None; }
        result := AddToLast(result, [s[end]]);
      }
      start := end + 1;
    }
  }
}
