/** Searching and cutting texts. */
module Strings {
  import opened Basics

  /** ASCII white space, as Rust's `trim` and JavaScript's `\s` see it. */
  predicate White(c: char) {
    c == ' ' || 9 <= c as int <= 13
  }

  /** `c` does not occur. */
  predicate Free(s: string, c: char) {
    forall i :: 0 <= i < |s| ==> s[i] != c
  }

  /** The first position at or after `from` holding `c`, or the length. */
  function Find(s: string, from: nat, c: char): (i: nat)
    requires from <= |s|
    ensures from <= i <= |s|
    ensures forall k :: from <= k < i ==> s[k] != c
    ensures i < |s| ==> s[i] == c
    decreases |s| - from
  {
    if from == |s| || s[from] == c then from else Find(s, from + 1, c)
  }

  lemma FindIs(s: string, from: nat, c: char, i: nat)
    requires from <= i < |s| && s[i] == c && forall k :: from <= k < i ==> s[k] != c
    ensures Find(s, from, c) == i
  {}

  /** Split at the first `c`: what precedes it and what follows it. */
  function Cut(s: string, c: char): (r: Option<(string, string)>)
    ensures match r case None => Free(s, c) case Some((a, b)) => Free(a, c) && s == a + [c] + b
  {
    var i := Find(s, 0, c);
    if i == |s| then None else Some((s[..i], s[i + 1..]))
  }

  lemma CutIs(a: string, c: char, b: string)
    requires Free(a, c)
    ensures Cut(a + [c] + b, c) == Some((a, b))
  {
    var s := a + [c] + b;
    FindIs(s, 0, c, |a|);
    assert s[..|a|] == a && s[|a| + 1..] == b;
  }
}
