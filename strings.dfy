/** The string operations the handlers and the router rely on (Go's strings package). */
module Strings {

  /** Go's strings.HasPrefix: `p` is an initial segment of `s`. */
  predicate HasPrefix(s: string, p: string) {
    |p| <= |s| && s[..|p|] == p
  }

  /** Extending both strings by the same text in front does not change the answer. */
  lemma CommonHead(a: string, x: string, y: string)
    ensures HasPrefix(a + x, a + y) <==> HasPrefix(x, y)
  {
    if HasPrefix(x, y) {
      assert (a + x)[..|a + y|] == a + x[..|y|];
    }
    if HasPrefix(a + x, a + y) {
      assert x[..|y|] == (a + x)[..|a + y|][|a|..];
    }
  }

  /** A string that begins with `p + q` begins with `p`. */
  lemma PrefixOfPrefix(s: string, p: string, q: string)
    requires HasPrefix(s, p + q)
    ensures HasPrefix(s, p)
  {
    assert s[..|p|] == s[..|p + q|][..|p|];
  }

  /** Two slash-free names followed by "/" select each other only when they are equal:
      `t + "/" + rest` begins with `s + "/"` exactly when `s == t`. */
  lemma SeparatedNames(s: string, t: string, rest: string)
    requires '/' !in s && '/' !in t
    ensures HasPrefix(t + "/" + rest, s + "/") <==> s == t
  {
    var u := t + "/" + rest;
    if HasPrefix(u, s + "/") {
      assert u[|s|] == (s + "/")[|s|] == '/';
      assert forall i :: 0 <= i < |t| ==> u[i] == t[i] && t[i] != '/';
      assert |t| <= |s|;
      assert u[|t|] == '/';
      assert forall i :: 0 <= i < |s| ==> u[i] == (s + "/")[i] == s[i] && s[i] != '/';
      assert |s| == |t|;
      assert s == u[..|s|] == t;
    }
  }
}
