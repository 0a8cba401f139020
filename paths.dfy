/** Paths of the storage view: a directory's entry is addressed as
    parent + '/' + name, and names never contain '/'. */
module Paths {
  import opened Basics
  import opened Strings

  type Path = string

  /** The path of the entry called name inside directory dir. */
  function Child(dir: Path, name: string): Path
  {
    dir + "/" + name
  }

  /** A name a directory listing can hold. */
  predicate ValidName(name: string)
  {
    '/' !in name
  }

  /** A path built by Child determines its parent and its name: this is
      what makes the directory graph a tree. */
  lemma ChildInjective(d1: Path, n1: string, d2: Path, n2: string)
    requires ValidName(n1) && ValidName(n2)
    ensures Child(d1, n1) == Child(d2, n2) ==> d1 == d2 && n1 == n2
  {
    var c := Child(d1, n1);
    if c == Child(d2, n2) {
      assert c == d1 + ['/'] + n1 && c == d2 + ['/'] + n2;
      LastIndexOfBeforeSuffix(d1, '/', n1);
      LastIndexOfBeforeSuffix(d2, '/', n2);
      assert d1 == c[..|d1|] && d2 == c[..|d2|];
      assert n1 == c[|d1| + 1..] && n2 == c[|d2| + 1..];
    }
  }

  /** The view's path normalisation: a relative path is taken from the root. */
  function Normalize(p: Path): (r: Path)
    ensures |r| > 0 && r[0] == '/'
    ensures p != [] && p[0] == '/' ==> r == p
    ensures !(p != [] && p[0] == '/') ==> r == "/" + p
  {
    if p != [] && p[0] == '/' then p else "/" + p
  }

  /** q is p itself or lies below it. */
  predicate Under(q: Path, p: Path)
  {
    q == p || (|p| + 1 <= |q| && q[..|p| + 1] == p + "/")
  }

  /** Drops every key at or below p: the effect of a recursive delete. */
  function DropUnder<V>(m: map<Path, V>, p: Path): (r: map<Path, V>)
    ensures forall q :: q in r <==> q in m && !Under(q, p)
    ensures forall q :: q in r ==> r[q] == m[q]
  {
    map q | q in m && !Under(q, p) :: m[q]
  }
}
