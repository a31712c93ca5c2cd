/** String and path helpers used by the naming scheme. */
module Text {

  predicate StartsWith(s: string, prefix: string) {
    |prefix| <= |s| && s[..|prefix|] == prefix
  }

  predicate EndsWith(s: string, suffix: string) {
    |suffix| <= |s| && s[|s| - |suffix|..] == suffix
  }

  /** `new File(parent, child)`: the child path under a parent directory. */
  function Join(parent: string, child: string): string {
    parent + "/" + child
  }

  /** Appending a suffix keeps a prefix and gives a string ending with that suffix. */
  lemma AppendKeepsPrefix(s: string, prefix: string, suffix: string)
    requires StartsWith(s, prefix)
    ensures StartsWith(s + suffix, prefix) && EndsWith(s + suffix, suffix)
  {
    assert (s + suffix)[..|prefix|] == s[..|prefix|];
    assert (s + suffix)[|s|..] == suffix;
  }

  /** `String.lastIndexOf(c)`: the last position holding `c`, or -1. */
  function LastIndexOf(s: string, c: char): (r: int)
    ensures -1 <= r < |s|
    ensures r >= 0 ==> s[r] == c
    ensures forall j :: r < j < |s| ==> s[j] != c
  {
    if |s| == 0 then -1
    else if s[|s| - 1] == c then |s| - 1
    else LastIndexOf(s[..|s| - 1], c)
  }

  lemma JoinNested(dir: string, sub: string, name: string)
    ensures Join(Join(dir, sub), name) == Join(dir, Join(sub, name))
  {
  }

  /** Two paths under the same parent are equal only when the children are. */
  lemma JoinInjective(parent: string, a: string, b: string)
    ensures Join(parent, a) == Join(parent, b) <==> a == b
  {
    if Join(parent, a) == Join(parent, b) {
      var n := |parent| + 1;
      assert a == Join(parent, a)[n..];
    }
  }
}
