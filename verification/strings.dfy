/** Character-sequence utilities the model needs: suffix tests, splitting on a
    separator (Rust's `str::split` with a `char` pattern) and its inverse, and
    the escaping Rust's `{:?}` applies to a string. */
module Strings {
  import opened Wrappers

  /** `suffix` ends `s`. (A prefix test is Dafny's built-in `<=` on sequences.) */
  predicate EndsWith(s: string, suffix: string) {
    |suffix| <= |s| && s[|s| - |suffix|..] == suffix
  }

  /** The position of the first `c` in `s`, or `|s|` when there is none. */
  function IndexOf(s: string, c: char): (i: nat)
    ensures i <= |s|
    ensures i < |s| ==> s[i] == c
    ensures forall j :: 0 <= j < i ==> s[j] != c
    decreases |s|
  {
    if |s| == 0 then 0
    else if s[0] == c then 0
    else 1 + IndexOf(s[1..], c)
  }

  /** The pieces of `s` between occurrences of `sep`, in order; empty pieces
      are kept, so there is always one more piece than there are separators. */
  function Split(s: string, sep: char): (parts: seq<string>)
    ensures |parts| >= 1
    decreases |s|
  {
    var i := IndexOf(s, sep);
    if i == |s| then [s] else [s[..i]] + Split(s[i + 1..], sep)
  }

  /** The pieces glued back together with `sep` between neighbours. */
  function Join(parts: seq<string>, sep: char): string
    requires |parts| >= 1
    decreases |parts|
  {
    if |parts| == 1 then parts[0] else parts[0] + [sep] + Join(parts[1..], sep)
  }

  /** No piece contains the separator. */
  lemma {:induction false} SplitPiecesHaveNoSeparator(s: string, sep: char)
    ensures forall k :: 0 <= k < |Split(s, sep)| ==> sep !in Split(s, sep)[k]
    decreases |s|
  {
    var i := IndexOf(s, sep);
    if i < |s| {
      SplitPiecesHaveNoSeparator(s[i + 1..], sep);
      assert sep !in s[..i];
    }
  }

  /** A piece without separator splits into itself. */
  lemma SplitNoSeparator(a: string, sep: char)
    requires sep !in a
    ensures Split(a, sep) == [a]
  {
    assert IndexOf(a, sep) == |a|;
  }

  /** A separator-free head is split off as the first piece. */
  lemma SplitAfterPiece(a: string, b: string, sep: char)
    requires sep !in a
    ensures Split(a + [sep] + b, sep) == [a] + Split(b, sep)
  {
    var s := a + [sep] + b;
    assert s[|a|] == sep;
    assert forall j :: 0 <= j < |a| ==> s[j] == a[j];
    assert IndexOf(s, sep) == |a|;
    assert s[..|a|] == a;
    assert s[|a| + 1..] == b;
  }

  /** The part before the first occurrence of `c` does not contain `c`. */
  lemma BeforeIndexOf(s: string, c: char)
    ensures c !in s[..IndexOf(s, c)]
  {
    var i := IndexOf(s, c);
    forall j | 0 <= j < i ensures s[..i][j] != c {
      assert s[..i][j] == s[j];
    }
  }

  /** Moving the parentheses across two separators. */
  lemma RegroupSeparators(x: string, y: string, z: string, sep: char)
    ensures x + [sep] + y + [sep] + z == x + [sep] + (y + [sep] + z)
  {
  }

  /** Splitting distributes over a separator: the pieces of `a`, then those of `b`. */
  lemma {:induction false} SplitAtSeparator(a: string, b: string, sep: char)
    ensures Split(a + [sep] + b, sep) == Split(a, sep) + Split(b, sep)
    decreases |a|
  {
    var i := IndexOf(a, sep);
    if i == |a| {
      SplitAfterPiece(a, b, sep);
    } else {
      var head, tail := a[..i], a[i + 1..];
      BeforeIndexOf(a, sep);
      CutAt(a, i);
      calc {
        Split(a + [sep] + b, sep);
        { RegroupSeparators(head, tail, b, sep); }
        Split(head + [sep] + (tail + [sep] + b), sep);
        { SplitAfterPiece(head, tail + [sep] + b, sep); }
        [head] + Split(tail + [sep] + b, sep);
        { SplitAtSeparator(tail, b, sep); }
        [head] + (Split(tail, sep) + Split(b, sep));
        ([head] + Split(tail, sep)) + Split(b, sep);
        { SplitAfterPiece(head, tail, sep); }
        Split(a, sep) + Split(b, sep);
      }
    }
  }

  /** Splitting undoes joining, when no piece contains the separator. */
  lemma {:induction false} SplitJoin(parts: seq<string>, sep: char)
    requires |parts| >= 1
    requires forall k :: 0 <= k < |parts| ==> sep !in parts[k]
    ensures Split(Join(parts, sep), sep) == parts
    decreases |parts|
  {
    if |parts| == 1 {
      SplitNoSeparator(parts[0], sep);
    } else {
      SplitJoin(parts[1..], sep);
      SplitAfterPiece(parts[0], Join(parts[1..], sep), sep);
      assert [parts[0]] + parts[1..] == parts;
    }
  }

  /** Three pieces joined: the separator between neighbours. */
  lemma JoinThree(parts: seq<string>, sep: char)
    requires |parts| == 3
    ensures Join(parts, sep) == parts[0] + [sep] + parts[1] + [sep] + parts[2]
  {
    var tail := parts[1..];
    assert tail[1..] == [parts[2]];
    assert Join(tail, sep) == parts[1] + [sep] + parts[2];
    assert Join(parts, sep) == parts[0] + [sep] + Join(tail, sep);
  }

  /** One step of `Split`: the piece before the first separator, then the
      pieces of the rest. */
  lemma SplitFirst(s: string, sep: char)
    requires IndexOf(s, sep) < |s|
    ensures Split(s, sep) == [s[..IndexOf(s, sep)]] + Split(s[IndexOf(s, sep) + 1..], sep)
  {
  }

  /** One step of `Join`: the first piece, the separator, then the rest joined. */
  lemma JoinFirst(head: string, rest: seq<string>, sep: char)
    requires |rest| >= 1
    ensures Join([head] + rest, sep) == head + [sep] + Join(rest, sep)
  {
    assert ([head] + rest)[0] == head;
    assert ([head] + rest)[1..] == rest;
  }

  /** A string is the part before position `i`, the character there, and
      the part after it. */
  lemma CutAt(s: string, i: nat)
    requires i < |s|
    ensures s == s[..i] + [s[i]] + s[i + 1..]
  {
  }

  /** Joining undoes splitting, for every string. */
  lemma {:induction false} JoinSplit(s: string, sep: char)
    ensures Join(Split(s, sep), sep) == s
    decreases |s|
  {
    var i := IndexOf(s, sep);
    if i < |s| {
      var head, tail := s[..i], s[i + 1..];
      var rest := Split(tail, sep);
      SplitFirst(s, sep);
      JoinSplit(tail, sep);
      JoinFirst(head, rest, sep);
      CutAt(s, i);
      calc {
        Join(Split(s, sep), sep);
        Join([head] + rest, sep);
        head + [sep] + Join(rest, sep);
        head + [sep] + tail;
        s;
      }
    }
  }

  // Rust's `{:?}` for a string: the characters between double quotes, with
  // the ones below written as two-character escapes.

  /** The escape Rust's `char::escape_debug` writes for `c` inside a string. */
  function EscapeChar(c: char): string {
    if c == '\0' then "\\0"
    else if c == '\t' then "\\t"
    else if c == '\r' then "\\r"
    else if c == '\n' then "\\n"
    else if c == '"' then "\\\""
    else if c == '\\' then "\\\\"
    else [c]
  }

  /** True of the characters `EscapeChar` rewrites. */
  predicate NeedsEscape(c: char) {
    c == '\0' || c == '\t' || c == '\r' || c == '\n' || c == '"' || c == '\\'
  }

  function EscapeDebug(s: string): string
    decreases |s|
  {
    if |s| == 0 then "" else EscapeChar(s[0]) + EscapeDebug(s[1..])
  }

  /** `format!("{:?}", s)` for a string `s`. */
  function DebugString(s: string): (r: string)
    ensures |r| >= 2 && r[0] == '"' && r[|r| - 1] == '"'
    ensures UnescapeDebug(r[1..|r| - 1]) == Some(s)
    ensures Plain(s) ==> r == "\"" + s + "\""
  {
    var body := EscapeDebug(s);
    UnescapeEscape(s);
    if Plain(s) then EscapePlain(s); "\"" + body + "\""
    else var r := "\"" + body + "\""; assert r[1..|r| - 1] == body; r
  }

  /** The character an escape letter stands for, if it is one `EscapeChar` writes. */
  function UnescapeLetter(c: char): Option<char> {
    if c == '0' then Some('\0')
    else if c == 't' then Some('\t')
    else if c == 'r' then Some('\r')
    else if c == 'n' then Some('\n')
    else if c == '"' then Some('"')
    else if c == '\\' then Some('\\')
    else None
  }

  /** Reads back the body of a `{:?}` string; fails on a dangling or unknown
      escape and on a character that should have been escaped. */
  function UnescapeDebug(t: string): Option<string>
    decreases |t|
  {
    if |t| == 0 then Some("")
    else if t[0] == '\\' then
      if |t| < 2 then None
      else
        var c :- UnescapeLetter(t[1]);
        var rest :- UnescapeDebug(t[2..]);
        Some([c] + rest)
    else if NeedsEscape(t[0]) then None
    else
      var rest :- UnescapeDebug(t[1..]);
      Some([t[0]] + rest)
  }

  /** Reading back one escaped character, then whatever follows it. */
  lemma UnescapeEscapeChar(c: char, u: string)
    ensures UnescapeDebug(EscapeChar(c) + u)
         == match UnescapeDebug(u)
            case None => None
            case Some(rest) => Some([c] + rest)
  {
    var t := EscapeChar(c) + u;
    if NeedsEscape(c) {
      assert t[0] == '\\' && UnescapeLetter(t[1]) == Some(c);
      assert t[2..] == u;
    } else {
      assert t[0] == c;
      assert t[1..] == u;
    }
  }

  /** Escaping loses nothing: reading the escaped text back gives the original. */
  lemma {:induction false} UnescapeEscape(s: string)
    ensures UnescapeDebug(EscapeDebug(s)) == Some(s)
    decreases |s|
  {
    if |s| > 0 {
      UnescapeEscape(s[1..]);
      UnescapeEscapeChar(s[0], EscapeDebug(s[1..]));
      assert [s[0]] + s[1..] == s;
    }
  }

  /** `s` has no character `{:?}` would escape. */
  predicate Plain(s: string) {
    forall i :: 0 <= i < |s| ==> !NeedsEscape(s[i])
  }

  lemma PlainConcat(a: string, b: string)
    requires Plain(a) && Plain(b)
    ensures Plain(a + b)
  {
    forall i | 0 <= i < |a + b| ensures !NeedsEscape((a + b)[i]) {
      if i >= |a| {
        assert (a + b)[i] == b[i - |a|];
      }
    }
  }

  /** A string with nothing to escape is printed by `{:?}` verbatim between quotes. */
  lemma {:induction false} EscapePlain(s: string)
    requires Plain(s)
    ensures EscapeDebug(s) == s
    decreases |s|
  {
    if |s| > 0 {
      EscapePlain(s[1..]);
      assert [s[0]] + s[1..] == s;
    }
  }
}
