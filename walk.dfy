/** The explicit-stack depth-first walk over a user's tree, stated on values:
    the invariant the controller's walk loops keep, the lemmas that carry it
    across one step, and what it gives once the stack is empty.

    skipShared selects the decrypt walk, which ignores entries mounted from
    shared storage (neither descended into nor handed to the file step). */
module Walk {
  import opened Basics
  import opened Paths
  import opened Storage

  predicate Considered(skipShared: bool, it: Item)
  {
    !(skipShared && it.shared)
  }

  /** Entry i of directory p is a directory the walk pushes. */
  predicate Descends(dirs: Dirs, skipShared: bool, p: Path, i: nat)
  {
    i < |Items(dirs, p)| && Considered(skipShared, Items(dirs, p)[i]) && Child(p, Items(dirs, p)[i].name) in dirs
  }

  /** Entry i of directory p is a file the walk hands to the file step. */
  predicate IsLeaf(dirs: Dirs, skipShared: bool, p: Path, i: nat)
  {
    i < |Items(dirs, p)| && Considered(skipShared, Items(dirs, p)[i]) && Child(p, Items(dirs, p)[i].name) !in dirs
  }

  function ChildAt(dirs: Dirs, p: Path, i: nat): Path
    requires i < |Items(dirs, p)|
  {
    Child(p, Items(dirs, p)[i].name)
  }

  /** Distinct entries of a well-formed structure have distinct paths, so
      every path has at most one parent entry. */
  lemma ChildAtInjective(dirs: Dirs, p: Path, i: nat, q: Path, k: nat)
    requires WellFormed(dirs)
    requires i < |Items(dirs, p)| && k < |Items(dirs, q)|
    requires p != q || i != k
    ensures ChildAt(dirs, p, i) != ChildAt(dirs, q, k)
  {
    ChildInjective(p, Items(dirs, p)[i].name, q, Items(dirs, q)[k].name);
  }

  /** Where a discovered path was found: entry index of directory parent. */
  datatype Link = Link(parent: Path, index: nat)

  ghost predicate FoundDir(dirs: Dirs, skipShared: bool, links: map<Path, Link>, q: Path)
  {
    q in links && Descends(dirs, skipShared, links[q].parent, links[q].index)
    && q == ChildAt(dirs, links[q].parent, links[q].index)
  }

  ghost predicate FoundFile(dirs: Dirs, skipShared: bool, links: map<Path, Link>, q: Path)
  {
    q in links && IsLeaf(dirs, skipShared, links[q].parent, links[q].index)
    && q == ChildAt(dirs, links[q].parent, links[q].index)
  }

  /** Bookkeeping shape: the stack and the popped set are disjoint, duplicate
      free, and hold the seed or paths below it. */
  ghost predicate Shape(dirs: Dirs, seed: Path, stack: seq<Path>, popped: set<Path>, visited: seq<Path>)
  {
    && (seed in popped || seed in stack)
    && NoDup(stack)
    && NoDup(visited)
    && (forall k :: 0 <= k < |stack| ==> stack[k] !in popped)
    && (forall k :: 0 <= k < |stack| ==> |stack[k]| >= |seed| && (stack[k] in dirs || stack[k] == seed))
    && (forall q :: q in popped ==> |q| >= |seed| && (q in dirs || q == seed))
  }

  /** Every link points at an entry of a popped directory already handled. */
  ghost predicate LinksHandled(popped: set<Path>, links: map<Path, Link>, cur: Path, upto: nat)
  {
    forall q :: q in links ==> links[q].parent in popped && (links[q].parent == cur ==> links[q].index < upto)
  }

  /** Everything discovered other than the seed has a link to where it was found. */
  ghost predicate Found(dirs: Dirs, skipShared: bool, seed: Path, stack: seq<Path>, popped: set<Path>,
                        visited: seq<Path>, links: map<Path, Link>)
  {
    && (forall k :: 0 <= k < |stack| && stack[k] != seed ==> FoundDir(dirs, skipShared, links, stack[k]))
    && (forall q {:trigger FoundDir(dirs, skipShared, links, q)} ::
          q in popped && q != seed ==> FoundDir(dirs, skipShared, links, q))
    && (forall k :: 0 <= k < |visited| ==> FoundFile(dirs, skipShared, links, visited[k]))
  }

  /** Every handled entry has been pushed or visited. */
  ghost predicate Closed(dirs: Dirs, skipShared: bool, stack: seq<Path>, popped: set<Path>,
                         visited: seq<Path>, cur: Path, upto: nat)
  {
    && (forall q, i: nat :: q in popped && Descends(dirs, skipShared, q, i) && (q == cur ==> i < upto) ==>
          ChildAt(dirs, q, i) in popped || ChildAt(dirs, q, i) in stack)
    && (forall q, i: nat :: q in popped && IsLeaf(dirs, skipShared, q, i) && (q == cur ==> i < upto) ==>
          ChildAt(dirs, q, i) in visited)
  }

  /** The walk's invariant while entries 0..upto-1 of the directory cur (the
      one popped last) have been handled. */
  ghost predicate Inv(dirs: Dirs, skipShared: bool, seed: Path, stack: seq<Path>, popped: set<Path>,
                      visited: seq<Path>, links: map<Path, Link>, cur: Path, upto: nat)
  {
    && WellFormed(dirs)
    && Shape(dirs, seed, stack, popped, visited)
    && LinksHandled(popped, links, cur, upto)
    && Found(dirs, skipShared, seed, stack, popped, visited, links)
    && Closed(dirs, skipShared, stack, popped, visited, cur, upto)
  }

  /** What a walk, finished or stopped early, has handled so far: each file
      at most once, and only directories and files reachable from the seed
      through directories the walk descends into. */
  ghost predicate Reached(dirs: Dirs, skipShared: bool, seed: Path, popped: set<Path>, visited: seq<Path>)
  {
    && NoDup(visited)
    && (forall q :: q in popped && q != seed ==>
          exists p: Path, i: nat :: p in popped && Descends(dirs, skipShared, p, i) && q == ChildAt(dirs, p, i))
    && (forall v :: v in visited ==>
          exists p: Path, i: nat :: p in popped && IsLeaf(dirs, skipShared, p, i) && v == ChildAt(dirs, p, i))
  }

  /** The outcome of a finished walk: every entry reachable from the seed
      through directories the walk descends into was handled once, and
      nothing else was. */
  ghost predicate Complete(dirs: Dirs, skipShared: bool, seed: Path, popped: set<Path>, visited: seq<Path>)
  {
    && seed in popped
    && Reached(dirs, skipShared, seed, popped, visited)
    // closure: a popped directory's subdirectories are popped, its files visited
    && (forall q, i: nat :: q in popped && Descends(dirs, skipShared, q, i) ==> ChildAt(dirs, q, i) in popped)
    && (forall q, i: nat :: q in popped && IsLeaf(dirs, skipShared, q, i) ==> ChildAt(dirs, q, i) in visited)
  }

  lemma InitialInv(dirs: Dirs, skipShared: bool, seed: Path)
    requires WellFormed(dirs)
    ensures Inv(dirs, skipShared, seed, [seed], {}, [], map[], seed, |Items(dirs, seed)|)
  {
  }

  /** Popping the top of the stack starts a new directory. */
  lemma PopStep(dirs: Dirs, skipShared: bool, seed: Path, stack: seq<Path>, popped: set<Path>,
                visited: seq<Path>, links: map<Path, Link>, cur: Path)
    requires stack != []
    requires Inv(dirs, skipShared, seed, stack, popped, visited, links, cur, |Items(dirs, cur)|)
    ensures var p := stack[|stack| - 1];
      && p !in popped && (p in dirs || p == seed)
      && Inv(dirs, skipShared, seed, stack[..|stack| - 1], popped + {p}, visited, links, p, 0)
  {
    PopShape(dirs, seed, stack, popped, visited);
    PopFound(dirs, skipShared, seed, stack, popped, visited, links);
    PopClosed(dirs, skipShared, stack, popped, visited, cur);
  }

  lemma PopShape(dirs: Dirs, seed: Path, stack: seq<Path>, popped: set<Path>, visited: seq<Path>)
    requires stack != [] && Shape(dirs, seed, stack, popped, visited)
    ensures var p := stack[|stack| - 1];
      && p !in popped && (p in dirs || p == seed)
      && Shape(dirs, seed, stack[..|stack| - 1], popped + {p}, visited)
  {
    var n := |stack| - 1;
    var rest := stack[..n];
    assert forall k :: 0 <= k < n ==> rest[k] == stack[k];
    assert seed in rest || seed == stack[n] || seed in popped;
  }

  lemma PopFound(dirs: Dirs, skipShared: bool, seed: Path, stack: seq<Path>, popped: set<Path>,
                 visited: seq<Path>, links: map<Path, Link>)
    requires stack != [] && Found(dirs, skipShared, seed, stack, popped, visited, links)
    ensures var p := stack[|stack| - 1];
      && Found(dirs, skipShared, seed, stack[..|stack| - 1], popped + {p}, visited, links)
      && (p != seed ==> FoundDir(dirs, skipShared, links, p))
  {
    var n := |stack| - 1;
    var p, rest := stack[n], stack[..n];
    assert forall k :: 0 <= k < n ==> rest[k] == stack[k];
    forall q | q in popped + {p} && q != seed
      ensures FoundDir(dirs, skipShared, links, q)
    {
      if q == p {
        assert FoundDir(dirs, skipShared, links, stack[n]);
      }
    }
  }

  lemma PopClosed(dirs: Dirs, skipShared: bool, stack: seq<Path>, popped: set<Path>, visited: seq<Path>, cur: Path)
    requires stack != [] && stack[|stack| - 1] !in popped
    requires Closed(dirs, skipShared, stack, popped, visited, cur, |Items(dirs, cur)|)
    ensures var p := stack[|stack| - 1];
      Closed(dirs, skipShared, stack[..|stack| - 1], popped + {p}, visited, p, 0)
  {
    var n := |stack| - 1;
    var p, rest := stack[n], stack[..n];
    var popped' := popped + {p};
    assert forall q :: q in stack ==> q in rest || q == p;
    forall q, i: nat | q in popped' && Descends(dirs, skipShared, q, i) && (q == p ==> i < 0)
      ensures ChildAt(dirs, q, i) in popped' || ChildAt(dirs, q, i) in rest
    {
      assert q in popped;
    }
    forall q, i: nat | q in popped' && IsLeaf(dirs, skipShared, q, i) && (q == p ==> i < 0)
      ensures ChildAt(dirs, q, i) in visited
    {
      assert q in popped;
    }
  }

  /** A directory entry handled now was not discovered before. */
  lemma FreshChild(dirs: Dirs, skipShared: bool, seed: Path, stack: seq<Path>, popped: set<Path>,
                   visited: seq<Path>, links: map<Path, Link>, cur: Path, j: nat)
    requires Inv(dirs, skipShared, seed, stack, popped, visited, links, cur, j)
    requires cur in popped && j < |Items(dirs, cur)|
    ensures var c := ChildAt(dirs, cur, j);
      c !in popped && c !in stack && c !in visited
  {
    var c := ChildAt(dirs, cur, j);
    assert |c| > |cur| >= |seed|;
    forall q | q in popped
      ensures q != c
    {
      if q != seed {
        assert FoundDir(dirs, skipShared, links, q);
        ChildAtInjective(dirs, cur, j, links[q].parent, links[q].index);
      }
    }
    forall k | 0 <= k < |stack|
      ensures stack[k] != c
    {
      if stack[k] != seed {
        var l := links[stack[k]];
        ChildAtInjective(dirs, cur, j, l.parent, l.index);
      }
    }
    forall k | 0 <= k < |visited|
      ensures visited[k] != c
    {
      var l := links[visited[k]];
      ChildAtInjective(dirs, cur, j, l.parent, l.index);
    }
  }

  /** Re-pointing the link of a path that has no role yet keeps every
      recorded discovery. */
  lemma FoundAfterLink(dirs: Dirs, skipShared: bool, seed: Path, stack: seq<Path>, popped: set<Path>,
                       visited: seq<Path>, links: map<Path, Link>, c: Path, l: Link)
    requires Found(dirs, skipShared, seed, stack, popped, visited, links)
    requires c !in popped && c !in stack && c !in visited
    ensures Found(dirs, skipShared, seed, stack, popped, visited, links[c := l])
  {
    var links' := links[c := l];
    forall q | q in popped && q != seed
      ensures FoundDir(dirs, skipShared, links', q)
    {
      assert FoundDir(dirs, skipShared, links, q);
    }
    forall k | 0 <= k < |stack| && stack[k] != seed
      ensures FoundDir(dirs, skipShared, links', stack[k])
    {
      assert FoundDir(dirs, skipShared, links, stack[k]);
    }
    forall k | 0 <= k < |visited|
      ensures FoundFile(dirs, skipShared, links', visited[k])
    {
      assert FoundFile(dirs, skipShared, links, visited[k]);
    }
  }

  lemma PushStep(dirs: Dirs, skipShared: bool, seed: Path, stack: seq<Path>, popped: set<Path>,
                 visited: seq<Path>, links: map<Path, Link>, cur: Path, j: nat)
    requires Inv(dirs, skipShared, seed, stack, popped, visited, links, cur, j)
    requires cur in popped && Descends(dirs, skipShared, cur, j)
    ensures var c := ChildAt(dirs, cur, j);
      Inv(dirs, skipShared, seed, stack + [c], popped, visited, links[c := Link(cur, j)], cur, j + 1)
  {
    var c := ChildAt(dirs, cur, j);
    FreshChild(dirs, skipShared, seed, stack, popped, visited, links, cur, j);
    var stack', links' := stack + [c], links[c := Link(cur, j)];
    PushShape(dirs, seed, stack, popped, visited, c, cur);
    FoundAfterLink(dirs, skipShared, seed, stack, popped, visited, links, c, Link(cur, j));
    PushFound(dirs, skipShared, seed, stack, popped, visited, links', c);
    PushClosed(dirs, skipShared, stack, popped, visited, cur, j);
    assert LinksHandled(popped, links', cur, j + 1);
  }

  lemma PushShape(dirs: Dirs, seed: Path, stack: seq<Path>, popped: set<Path>, visited: seq<Path>, c: Path, cur: Path)
    requires Shape(dirs, seed, stack, popped, visited)
    requires c !in popped && c !in stack && c in dirs && cur in popped && |c| > |cur|
    ensures Shape(dirs, seed, stack + [c], popped, visited)
  {
    var stack' := stack + [c];
    assert forall k :: 0 <= k < |stack| ==> stack'[k] == stack[k];
  }

  lemma PushFound(dirs: Dirs, skipShared: bool, seed: Path, stack: seq<Path>, popped: set<Path>,
                  visited: seq<Path>, links: map<Path, Link>, c: Path)
    requires Found(dirs, skipShared, seed, stack, popped, visited, links)
    requires FoundDir(dirs, skipShared, links, c)
    ensures Found(dirs, skipShared, seed, stack + [c], popped, visited, links)
  {
    var stack' := stack + [c];
    forall k | 0 <= k < |stack'| && stack'[k] != seed
      ensures FoundDir(dirs, skipShared, links, stack'[k])
    {
      if k < |stack| {
        assert stack'[k] == stack[k];
      }
    }
  }

  lemma PushClosed(dirs: Dirs, skipShared: bool, stack: seq<Path>, popped: set<Path>,
                   visited: seq<Path>, cur: Path, j: nat)
    requires Closed(dirs, skipShared, stack, popped, visited, cur, j)
    requires Descends(dirs, skipShared, cur, j)
    ensures Closed(dirs, skipShared, stack + [ChildAt(dirs, cur, j)], popped, visited, cur, j + 1)
  {
    var stack' := stack + [ChildAt(dirs, cur, j)];
    assert forall q :: q in stack ==> q in stack';
    assert ChildAt(dirs, cur, j) in stack';
  }

  lemma LeafStep(dirs: Dirs, skipShared: bool, seed: Path, stack: seq<Path>, popped: set<Path>,
                 visited: seq<Path>, links: map<Path, Link>, cur: Path, j: nat)
    requires Inv(dirs, skipShared, seed, stack, popped, visited, links, cur, j)
    requires cur in popped && IsLeaf(dirs, skipShared, cur, j)
    ensures var c := ChildAt(dirs, cur, j);
      Inv(dirs, skipShared, seed, stack, popped, visited + [c], links[c := Link(cur, j)], cur, j + 1)
  {
    var c := ChildAt(dirs, cur, j);
    FreshChild(dirs, skipShared, seed, stack, popped, visited, links, cur, j);
    var visited', links' := visited + [c], links[c := Link(cur, j)];
    LeafShape(dirs, seed, stack, popped, visited, c);
    FoundAfterLink(dirs, skipShared, seed, stack, popped, visited, links, c, Link(cur, j));
    LeafFound(dirs, skipShared, seed, stack, popped, visited, links', c);
    LeafClosed(dirs, skipShared, stack, popped, visited, cur, j);
    assert LinksHandled(popped, links', cur, j + 1);
  }

  /** Visiting a file keeps the invariant, and what the walk has handled,
      that file included, is reachable. */
  lemma LeafReached(dirs: Dirs, skipShared: bool, seed: Path, stack: seq<Path>, popped: set<Path>,
                    visited: seq<Path>, links: map<Path, Link>, cur: Path, j: nat)
    requires Inv(dirs, skipShared, seed, stack, popped, visited, links, cur, j)
    requires cur in popped && IsLeaf(dirs, skipShared, cur, j)
    ensures var c := ChildAt(dirs, cur, j);
      && Inv(dirs, skipShared, seed, stack, popped, visited + [c], links[c := Link(cur, j)], cur, j + 1)
      && Reached(dirs, skipShared, seed, popped, visited + [c])
  {
    var c := ChildAt(dirs, cur, j);
    LeafStep(dirs, skipShared, seed, stack, popped, visited, links, cur, j);
    InvReached(dirs, skipShared, seed, stack, popped, visited + [c], links[c := Link(cur, j)], cur, j + 1);
  }

  lemma LeafShape(dirs: Dirs, seed: Path, stack: seq<Path>, popped: set<Path>, visited: seq<Path>, c: Path)
    requires Shape(dirs, seed, stack, popped, visited)
    requires c !in visited
    ensures Shape(dirs, seed, stack, popped, visited + [c])
  {
    var visited' := visited + [c];
    assert forall k :: 0 <= k < |visited| ==> visited'[k] == visited[k];
  }

  lemma LeafFound(dirs: Dirs, skipShared: bool, seed: Path, stack: seq<Path>, popped: set<Path>,
                  visited: seq<Path>, links: map<Path, Link>, c: Path)
    requires Found(dirs, skipShared, seed, stack, popped, visited, links)
    requires FoundFile(dirs, skipShared, links, c)
    ensures Found(dirs, skipShared, seed, stack, popped, visited + [c], links)
  {
    var visited' := visited + [c];
    forall k | 0 <= k < |visited'|
      ensures FoundFile(dirs, skipShared, links, visited'[k])
    {
      if k < |visited| {
        assert visited'[k] == visited[k];
      }
    }
  }

  lemma LeafClosed(dirs: Dirs, skipShared: bool, stack: seq<Path>, popped: set<Path>,
                   visited: seq<Path>, cur: Path, j: nat)
    requires Closed(dirs, skipShared, stack, popped, visited, cur, j)
    requires IsLeaf(dirs, skipShared, cur, j)
    ensures Closed(dirs, skipShared, stack, popped, visited + [ChildAt(dirs, cur, j)], cur, j + 1)
  {
    var visited' := visited + [ChildAt(dirs, cur, j)];
    assert forall q :: q in visited ==> q in visited';
    assert ChildAt(dirs, cur, j) in visited';
  }

  /** An entry the walk ignores (shared storage in the decrypt walk). */
  lemma SkipStep(dirs: Dirs, skipShared: bool, seed: Path, stack: seq<Path>, popped: set<Path>,
                 visited: seq<Path>, links: map<Path, Link>, cur: Path, j: nat)
    requires Inv(dirs, skipShared, seed, stack, popped, visited, links, cur, j)
    requires j < |Items(dirs, cur)| && !Considered(skipShared, Items(dirs, cur)[j])
    ensures Inv(dirs, skipShared, seed, stack, popped, visited, links, cur, j + 1)
  {
    assert LinksHandled(popped, links, cur, j + 1);
    assert Closed(dirs, skipShared, stack, popped, visited, cur, j + 1);
  }

  /** Each pop consumes one element of the finite set of possible directories. */
  lemma PopDecreases(universe: set<Path>, popped: set<Path>, p: Path)
    requires p in universe && p !in popped
    ensures |universe - (popped + {p})| < |universe - popped|
  {
    assert universe - (popped + {p}) == (universe - popped) - {p};
  }

  /** At every step, what the walk has handled is reachable. */
  lemma InvReached(dirs: Dirs, skipShared: bool, seed: Path, stack: seq<Path>, popped: set<Path>,
                   visited: seq<Path>, links: map<Path, Link>, cur: Path, upto: nat)
    requires Inv(dirs, skipShared, seed, stack, popped, visited, links, cur, upto)
    ensures Reached(dirs, skipShared, seed, popped, visited)
  {
    forall q | q in popped && q != seed
      ensures exists p: Path, i: nat :: p in popped && Descends(dirs, skipShared, p, i) && q == ChildAt(dirs, p, i)
    {
      assert FoundDir(dirs, skipShared, links, q);
      var l := links[q];
      assert l.parent in popped && Descends(dirs, skipShared, l.parent, l.index);
    }
    forall v | v in visited
      ensures exists p: Path, i: nat :: p in popped && IsLeaf(dirs, skipShared, p, i) && v == ChildAt(dirs, p, i)
    {
      var k :| 0 <= k < |visited| && visited[k] == v;
      assert FoundFile(dirs, skipShared, links, visited[k]);
      var l := links[v];
      assert l.parent in popped && IsLeaf(dirs, skipShared, l.parent, l.index);
    }
  }

  /** With the stack empty, the invariant is the finished walk's outcome. */
  lemma FinalStep(dirs: Dirs, skipShared: bool, seed: Path, popped: set<Path>,
                  visited: seq<Path>, links: map<Path, Link>, cur: Path)
    requires Inv(dirs, skipShared, seed, [], popped, visited, links, cur, |Items(dirs, cur)|)
    ensures Complete(dirs, skipShared, seed, popped, visited)
  {
    InvReached(dirs, skipShared, seed, [], popped, visited, links, cur, |Items(dirs, cur)|);
  }
}
