/** Character-level facts about strings shared by the server and client models. */
module Strings {

  /** `p` occurs somewhere inside `s` as a contiguous piece. */
  ghost predicate IsInfix(p: string, s: string)
  {
    exists k :: 0 <= k <= |s| && p <= s[k..]
  }

  /** A piece placed between two others occurs in the result. */
  lemma InfixMiddle(a: string, p: string, b: string)
    ensures IsInfix(p, a + p + b)
  {
    var s := a + p + b;
    assert s[|a|..][..|p|] == p;
  }

  /** `x` followed by three pieces, regrouped. */
  lemma ConcatRegroup(x: string, a: string, b: string, c: string)
    ensures x + a + b + c == x + (a + b + c)
    ensures x <= x + a + b + c
  {
  }

  /** How many times `c` occurs in `s`. */
  function CountChar(s: string, c: char): (n: nat)
    ensures n <= |s|
    ensures n == 0 <==> c !in s
  {
    if s == [] then 0
    else
      assert s == s[..|s| - 1] + [s[|s| - 1]];
      CountChar(s[..|s| - 1], c) + (if s[|s| - 1] == c then 1 else 0)
  }

  /** `s` with every occurrence of `c` deleted, the other characters kept in order. */
  function RemoveChar(s: string, c: char): (r: string)
    ensures c !in r
    ensures |r| == |s| - CountChar(s, c)
  {
    if s == [] then []
    else RemoveChar(s[..|s| - 1], c) + (if s[|s| - 1] == c then [] else [s[|s| - 1]])
  }

  lemma {:induction false} CountCharConcat(a: string, b: string, c: char)
    ensures CountChar(a + b, c) == CountChar(a, c) + CountChar(b, c)
  {
    if b != [] {
      var last := b[|b| - 1];
      assert a + b == (a + b[..|b| - 1]) + [last];
      assert (a + b)[..|a + b| - 1] == a + b[..|b| - 1];
      CountCharConcat(a, b[..|b| - 1], c);
    } else {
      assert a + b == a;
    }
  }

  lemma {:induction false} RemoveCharConcat(a: string, b: string, c: char)
    ensures RemoveChar(a + b, c) == RemoveChar(a, c) + RemoveChar(b, c)
  {
    if b != [] {
      assert (a + b)[..|a + b| - 1] == a + b[..|b| - 1];
      RemoveCharConcat(a, b[..|b| - 1], c);
    } else {
      assert a + b == a;
    }
  }

  /** Deleting a character that does not occur changes nothing. */
  lemma {:induction false} RemoveCharAbsent(s: string, c: char)
    requires c !in s
    ensures RemoveChar(s, c) == s
  {
    if s != [] {
      assert s == s[..|s| - 1] + [s[|s| - 1]];
      RemoveCharAbsent(s[..|s| - 1], c);
    }
  }
}
