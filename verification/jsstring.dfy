/** The two JavaScript string built-ins the dialogue bubble relies on:
    `String.prototype.split` with a one-character separator and `String.prototype.trim`. */
module JsString {
  import opened Strings

  /** Position of the first `c` in `s`. */
  function FirstIndex(s: string, c: char): (i: nat)
    requires c in s
    ensures i < |s| && s[i] == c && c !in s[..i]
  {
    if s[0] == c then 0
    else
      assert s == [s[0]] + s[1..];
      1 + FirstIndex(s[1..], c)
  }

  lemma {:induction false} FirstIndexAt(s: string, c: char, i: nat)
    requires i < |s| && s[i] == c && c !in s[..i]
    ensures FirstIndex(s, c) == i
  {
    if s[0] != c {
      assert s[1..][..i - 1] == s[..i][1..];
      FirstIndexAt(s[1..], c, i - 1);
    }
  }

  /** `s.split(c)` for a one-character separator `c`: the pieces between separators, in
      order, with the empty pieces between adjacent separators kept. */
  function Split(s: string, c: char): (r: seq<string>)
    ensures |r| >= 1
    ensures forall i :: 0 <= i < |r| ==> c !in r[i]
    decreases |s|
  {
    if c !in s then [s]
    else
      var i := FirstIndex(s, c);
      [s[..i]] + Split(s[i + 1..], c)
  }

  /** `parts.join(c)`. */
  function Join(parts: seq<string>, c: char): string
    requires |parts| >= 1
  {
    if |parts| == 1 then parts[0]
    else parts[0] + [c] + Join(parts[1..], c)
  }

  /** There is exactly one more piece than there are separators, so no piece is dropped. */
  lemma {:induction false} SplitCount(s: string, c: char)
    ensures |Split(s, c)| == CountChar(s, c) + 1
    decreases |s|
  {
    if c in s {
      var i := FirstIndex(s, c);
      assert s == s[..i] + [c] + s[i + 1..];
      CountCharConcat(s[..i] + [c], s[i + 1..], c);
      CountCharConcat(s[..i], [c], c);
      assert [c] == [] + [c];
      SplitCount(s[i + 1..], c);
    }
  }

  /** A character absent from the input is absent from every piece. */
  lemma {:induction false} SplitPiecesAvoid(s: string, c: char, d: char)
    requires d !in s
    ensures forall i :: 0 <= i < |Split(s, c)| ==> d !in Split(s, c)[i]
    decreases |s|
  {
    if c in s {
      var i := FirstIndex(s, c);
      assert forall k :: 0 <= k < i ==> s[..i][k] == s[k];
      assert forall k :: i + 1 <= k < |s| ==> s[i + 1..][k - i - 1] == s[k];
      SplitPiecesAvoid(s[i + 1..], c, d);
    }
  }

  /** Joining the pieces back with the separator gives the original string. */
  lemma {:induction false} JoinSplit(s: string, c: char)
    ensures Join(Split(s, c), c) == s
    decreases |s|
  {
    if c in s {
      var i := FirstIndex(s, c);
      var rest := Split(s[i + 1..], c);
      JoinSplit(s[i + 1..], c);
      assert ([s[..i]] + rest)[1..] == rest;
      assert s == s[..i] + [c] + s[i + 1..];
    }
  }

  /** The first separator of `s` sits at `i`: the piece before it, then the pieces after it. */
  lemma SplitAt(s: string, c: char, i: nat)
    requires i < |s| && s[i] == c && c !in s[..i]
    ensures Split(s, c) == [s[..i]] + Split(s[i + 1..], c)
  {
    FirstIndexAt(s, c, i);
  }

  /** A character absent from both halves is absent from their concatenation. */
  lemma NotInConcat(s: string, t: string, c: char)
    requires c !in s && c !in t
    ensures c !in s + t
  {
    assert forall k :: 0 <= k < |s + t| ==> (s + t)[k] == if k < |s| then s[k] else t[k - |s|];
  }

  /** Text appended after the first separator of `s` only affects the pieces after it. */
  lemma SplitAppendAfterFirst(s: string, u: string, c: char, i: nat)
    requires i < |s| && s[i] == c && c !in s[..i]
    ensures Split(s + u, c) == [s[..i]] + Split(s[i + 1..] + u, c)
  {
    var w := s + u;
    assert w[..i] == s[..i] && w[i] == c;
    assert w[i + 1..] == s[i + 1..] + u;
    SplitAt(w, c, i);
  }

  /** Appending text free of the separator extends the last piece. */
  lemma {:induction false} SplitAppendPlain(s: string, t: string, c: char)
    requires c !in t
    ensures var p := Split(s, c); Split(s + t, c) == p[..|p| - 1] + [p[|p| - 1] + t]
    decreases |s|
  {
    if c !in s {
      NotInConcat(s, t, c);
    } else {
      var i := FirstIndex(s, c);
      var tail := s[i + 1..];
      SplitAppendAfterFirst(s, t, c, i);
      SplitAt(s, c, i);
      SplitAppendPlain(tail, t, c);
      var p := Split(tail, c);
      assert ([s[..i]] + p)[..|p|] == [s[..i]] + p[..|p| - 1];
    }
  }

  /** Appending a separator and more text adds that text's pieces after the existing ones. */
  lemma {:induction false} SplitAppendSeparator(s: string, t: string, c: char)
    ensures Split(s + [c] + t, c) == Split(s, c) + Split(t, c)
    decreases |s|
  {
    if c !in s {
      SplitAtSeparator(s, t, c);
    } else {
      var i := FirstIndex(s, c);
      SplitAppendSeparator(s[i + 1..], t, c);
      SplitAppendSeparatorLater(s, t, c, i);
    }
  }

  /** The appended separator is the first one: the whole of `s` is the first piece. */
  lemma SplitAtSeparator(s: string, t: string, c: char)
    requires c !in s
    ensures Split(s + [c] + t, c) == [s] + Split(t, c)
  {
    var w := s + [c] + t;
    assert w[..|s|] == s && w[|s|] == c && w[|s| + 1..] == t;
    SplitAt(w, c, |s|);
  }

  /** `s` holds a separator at `i`, its first: the appended text only changes the pieces after it. */
  lemma SplitAppendSeparatorLater(s: string, t: string, c: char, i: nat)
    requires i < |s| && s[i] == c && c !in s[..i]
    requires Split(s[i + 1..] + [c] + t, c) == Split(s[i + 1..], c) + Split(t, c)
    ensures Split(s + [c] + t, c) == Split(s, c) + Split(t, c)
  {
    SplitSeparatorAfterFirst(s, t, c, i);
    SplitAt(s, c, i);
    SplitRegroup(s, t, c, i);
  }

  /** With `i` the first separator of `s`, the first piece of `s + [c] + t` ends at `i`. */
  lemma SplitSeparatorAfterFirst(s: string, t: string, c: char, i: nat)
    requires i < |s| && s[i] == c && c !in s[..i]
    ensures Split(s + [c] + t, c) == [s[..i]] + Split(s[i + 1..] + [c] + t, c)
  {
    var w := s + [c] + t;
    assert w[..i] == s[..i] && w[i] == c;
    assert w[i + 1..] == s[i + 1..] + [c] + t;
    SplitAt(w, c, i);
  }

  /** The three equations between the pieces combine into the one for `s`. */
  lemma SplitRegroup(s: string, t: string, c: char, i: nat)
    requires i < |s|
    requires Split(s[i + 1..] + [c] + t, c) == Split(s[i + 1..], c) + Split(t, c)
    requires Split(s + [c] + t, c) == [s[..i]] + Split(s[i + 1..] + [c] + t, c)
    requires Split(s, c) == [s[..i]] + Split(s[i + 1..], c)
    ensures Split(s + [c] + t, c) == Split(s, c) + Split(t, c)
  {
    ConsAppend(s[..i], Split(s[i + 1..], c), Split(t, c));
  }

  /** Regrouping a list that starts with one element. */
  lemma ConsAppend<T>(x: T, a: seq<T>, b: seq<T>)
    ensures [x] + (a + b) == [x] + a + b
  {
  }

  /** Splitting is the inverse of joining pieces that are free of the separator. */
  lemma {:induction false} SplitJoin(parts: seq<string>, c: char)
    requires |parts| >= 1
    requires forall i :: 0 <= i < |parts| ==> c !in parts[i]
    ensures Split(Join(parts, c), c) == parts
  {
    if |parts| > 1 {
      SplitJoin(parts[1..], c);
      SplitJoinStep(parts, c);
    }
  }

  /** Splitting the first piece, a separator and the joined rest gives back the first piece
      followed by the rest. */
  lemma SplitJoinStep(parts: seq<string>, c: char)
    requires |parts| > 1 && c !in parts[0]
    requires Split(Join(parts[1..], c), c) == parts[1..]
    ensures Split(Join(parts, c), c) == parts
  {
    var rest := parts[1..];
    assert Join(parts, c) == parts[0] + [c] + Join(rest, c);
    SplitAppendSeparator(parts[0], Join(rest, c), c);
    assert Split(parts[0], c) == [parts[0]];
    assert parts == [parts[0]] + rest;
  }

  /** Consecutive separators produce empty pieces, which are kept. */
  lemma SplitKeepsEmptyPieces()
    ensures Split("a  b", ' ') == ["a", "", "b"]
  {
    assert "a  b"[..1] == "a" && "a  b"[2..] == " b";
    FirstIndexAt("a  b", ' ', 1);
    assert " b"[..0] == "" && " b"[1..] == "b";
    FirstIndexAt(" b", ' ', 0);
    assert Split("b", ' ') == ["b"];
  }

  /** The characters `trim` removes: ECMAScript's WhiteSpace and LineTerminator code points. */
  predicate IsJsWhitespace(ch: char)
  {
    || ch == '\t' || ch == '\U{B}' || ch == '\U{C}' || ch == ' ' || ch == '\U{A0}'
    || ch == '\U{1680}' || ('\U{2000}' <= ch <= '\U{200A}') || ch == '\U{202F}'
    || ch == '\U{205F}' || ch == '\U{3000}' || ch == '\U{FEFF}'
    || ch == '\n' || ch == '\r' || ch == '\U{2028}' || ch == '\U{2029}'
  }

  ghost predicate AllWhitespace(s: string)
  {
    forall k :: 0 <= k < |s| ==> IsJsWhitespace(s[k])
  }

  /** Number of whitespace characters at the start of `s`. */
  function LeadingWhitespace(s: string): (n: nat)
    ensures n <= |s|
    ensures AllWhitespace(s[..n])
    ensures n < |s| ==> !IsJsWhitespace(s[n])
  {
    if s == [] || !IsJsWhitespace(s[0]) then 0
    else
      var n := 1 + LeadingWhitespace(s[1..]);
      assert s[..n] == [s[0]] + s[1..][..n - 1];
      n
  }

  /** Number of whitespace characters at the end of `s`. */
  function TrailingWhitespace(s: string): (n: nat)
    ensures n <= |s|
    ensures AllWhitespace(s[|s| - n..])
    ensures n < |s| ==> !IsJsWhitespace(s[|s| - n - 1])
  {
    if s == [] || !IsJsWhitespace(s[|s| - 1]) then 0
    else
      var init := s[..|s| - 1];
      var n := 1 + TrailingWhitespace(init);
      assert s[|s| - n..] == init[|init| - (n - 1)..] + [s[|s| - 1]];
      n
  }

  lemma AllWhitespaceConcat(x: string, y: string)
    requires AllWhitespace(x) && AllWhitespace(y)
    ensures AllWhitespace(x + y)
  {
  }

  /** `s.trim()`: `s` without its leading and trailing whitespace. */
  function Trim(s: string): (r: string)
    ensures r == [] || (!IsJsWhitespace(r[0]) && !IsJsWhitespace(r[|r| - 1]))
    ensures exists a :: 0 <= a <= |s| - |r| && r <= s[a..] && AllWhitespace(s[..a]) && AllWhitespace(s[a + |r|..])
    ensures r == [] <==> AllWhitespace(s)
  {
    var a := LeadingWhitespace(s);
    var b := TrailingWhitespace(s[a..]);
    TrimEnds(s, a, b);
    TrimStripsWhitespace(s, a, b);
    TrimBlank(s, a, b);
    s[a..][..|s| - a - b]
  }

  /** What is kept starts and ends with a character that is not whitespace. */
  lemma TrimEnds(s: string, a: nat, b: nat)
    requires a == LeadingWhitespace(s) && b == TrailingWhitespace(s[a..])
    ensures var r := s[a..][..|s| - a - b];
            r == [] || (!IsJsWhitespace(r[0]) && !IsJsWhitespace(r[|r| - 1]))
  {
    var rest := s[a..];
    var r := rest[..|rest| - b];
    if r != [] {
      assert r[0] == s[a];
      assert r[|r| - 1] == rest[|rest| - b - 1];
    }
  }

  /** What is removed is whitespace, before and after what is kept. */
  lemma TrimStripsWhitespace(s: string, a: nat, b: nat)
    requires a == LeadingWhitespace(s) && b == TrailingWhitespace(s[a..])
    ensures var r := s[a..][..|s| - a - b];
            0 <= a <= |s| - |r| && r <= s[a..] && AllWhitespace(s[..a]) && AllWhitespace(s[a + |r|..])
  {
    var rest := s[a..];
    assert s[a + (|s| - a - b)..] == rest[|rest| - b..];
  }

  /** Nothing is kept exactly when the whole string is whitespace. */
  lemma TrimBlank(s: string, a: nat, b: nat)
    requires a == LeadingWhitespace(s) && b == TrailingWhitespace(s[a..])
    ensures s[a..][..|s| - a - b] == [] <==> AllWhitespace(s)
  {
    var rest := s[a..];
    if a + b == |s| {
      assert s == s[..a] + rest[|rest| - b..];
      AllWhitespaceConcat(s[..a], rest[|rest| - b..]);
    } else {
      assert !IsJsWhitespace(s[a]);
    }
  }
}
