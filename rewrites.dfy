/** A sequence of copy-then-rename rewrites, one path after the other, and
    what it does to the files: only the rewritten paths and their
    temporaries change, and a path whose name clashes with no other
    rewrite ends up transformed with its temporary gone. */
module Rewrites {
  import opened Basics
  import opened Paths
  import opened Storage

  /** The files after rewriting paths in order, each through path.<tag>.<ts>. */
  function RewriteAll(files: Files, faults: map<Path, Fault>, session: set<string>,
                      paths: seq<Path>, tag: string, ts: nat): Files
  {
    if paths == [] then files
    else
      var n := |paths| - 1;
      Rewrite(RewriteAll(files, faults, session, paths[..n], tag, ts), faults, session,
              paths[n], Target(paths[n], tag, ts)).files
  }

  lemma RewriteAllSnoc(files: Files, faults: map<Path, Fault>, session: set<string>,
                       paths: seq<Path>, p: Path, tag: string, ts: nat)
    ensures RewriteAll(files, faults, session, paths + [p], tag, ts)
      == Rewrite(RewriteAll(files, faults, session, paths, tag, ts), faults, session, p, Target(p, tag, ts)).files
  {
    assert (paths + [p])[..|paths|] == paths;
  }

  /** Distinct paths have distinct temporaries. */
  lemma TargetInjective(p: Path, q: Path, tag: string, ts: nat)
    ensures Target(p, tag, ts) == Target(q, tag, ts) ==> p == q
  {
    var t := Target(p, tag, ts);
    if t == Target(q, tag, ts) {
      assert |p| == |q|;
      assert p == t[..|p|] == q;
    }
  }

  /** No path is rewritten twice and none is the temporary of another. */
  ghost predicate Separate(paths: seq<Path>, tag: string, ts: nat)
  {
    && NoDup(paths)
    && (forall i, j :: 0 <= i < |paths| && 0 <= j < |paths| ==> paths[i] != Target(paths[j], tag, ts))
  }

  /** A path that is neither rewritten nor a temporary keeps its content. */
  lemma {:induction false} RewriteAllOutside(files: Files, faults: map<Path, Fault>, session: set<string>,
                                             paths: seq<Path>, tag: string, ts: nat, q: Path)
    requires q !in paths
    requires forall j :: 0 <= j < |paths| ==> q != Target(paths[j], tag, ts)
    ensures var r := RewriteAll(files, faults, session, paths, tag, ts);
      (q in r <==> q in files) && (q in files ==> r[q] == files[q])
    decreases |paths|
  {
    if paths != [] {
      var n := |paths| - 1;
      assert forall j :: 0 <= j < n ==> paths[..n][j] == paths[j];
      RewriteAllOutside(files, faults, session, paths[..n], tag, ts, q);
    }
  }

  /** In a separate sequence, each rewritten path that the transform layer
      accepts ends up transformed, one it refuses with DecryptionFailed is
      left as it was, and either way no temporary is left behind. */
  lemma {:induction false} RewriteAllEffect(files: Files, faults: map<Path, Fault>, session: set<string>,
                                            paths: seq<Path>, tag: string, ts: nat, k: nat)
    requires Separate(paths, tag, ts) && k < |paths| && paths[k] in files
    ensures var r := RewriteAll(files, faults, session, paths, tag, ts);
      var p := paths[k];
      && (p !in faults ==> p in r && r[p] == Transform(files[p], session) && Target(p, tag, ts) !in r)
      && (p in faults && faults[p].kind == DecryptionFailed ==> p in r && r[p] == files[p] && Target(p, tag, ts) !in r)
    decreases |paths|
  {
    var n := |paths| - 1;
    var prefix := paths[..n];
    assert forall j :: 0 <= j < n ==> prefix[j] == paths[j];
    assert Separate(prefix, tag, ts);
    if k == n {
      RewriteAllLast(files, faults, session, prefix, paths[n], tag, ts);
      assert prefix + [paths[n]] == paths;
    } else {
      RewriteAllEffect(files, faults, session, prefix, tag, ts, k);
      RewriteAllLater(files, faults, session, prefix, paths[n], tag, ts, paths[k]);
      assert prefix + [paths[n]] == paths;
    }
  }

  /** The last rewrite of a sequence meets its path as the files held it. */
  lemma RewriteAllLast(files: Files, faults: map<Path, Fault>, session: set<string>,
                       prefix: seq<Path>, p: Path, tag: string, ts: nat)
    requires p !in prefix && p in files
    requires forall j :: 0 <= j < |prefix| ==> p != Target(prefix[j], tag, ts)
    ensures var r := RewriteAll(files, faults, session, prefix + [p], tag, ts);
      && (p !in faults ==> p in r && r[p] == Transform(files[p], session) && Target(p, tag, ts) !in r)
      && (p in faults && faults[p].kind == DecryptionFailed ==> p in r && r[p] == files[p] && Target(p, tag, ts) !in r)
  {
    RewriteAllOutside(files, faults, session, prefix, tag, ts, p);
    RewriteAllSnoc(files, faults, session, prefix, p, tag, ts);
  }

  /** A later rewrite of another path keeps what an earlier one left at p
      and its temporary. */
  lemma RewriteAllLater(files: Files, faults: map<Path, Fault>, session: set<string>,
                        prefix: seq<Path>, last: Path, tag: string, ts: nat, p: Path)
    requires last != p && last != Target(p, tag, ts) && p != Target(last, tag, ts)
    ensures var before := RewriteAll(files, faults, session, prefix, tag, ts);
      var r := RewriteAll(files, faults, session, prefix + [last], tag, ts);
      && (p in r <==> p in before) && (p in before ==> r[p] == before[p])
      && (Target(p, tag, ts) in r <==> Target(p, tag, ts) in before)
  {
    RewriteAllSnoc(files, faults, session, prefix, last, tag, ts);
    TargetInjective(p, last, tag, ts);
    var before := RewriteAll(files, faults, session, prefix, tag, ts);
    RewriteFrame(before, faults, session, last, Target(last, tag, ts), p);
    RewriteFrame(before, faults, session, last, Target(last, tag, ts), Target(p, tag, ts));
  }

  /** Rewriting a then b is rewriting a + b. */
  lemma {:induction false} RewriteAllAppend(files: Files, faults: map<Path, Fault>, session: set<string>,
                                            a: seq<Path>, b: seq<Path>, tag: string, ts: nat)
    ensures RewriteAll(files, faults, session, a + b, tag, ts)
      == RewriteAll(RewriteAll(files, faults, session, a, tag, ts), faults, session, b, tag, ts)
    decreases |b|
  {
    if b == [] {
      assert a + b == a;
    } else {
      var n := |b| - 1;
      RewriteAllAppend(files, faults, session, a, b[..n], tag, ts);
      assert (a + b)[..|a + b| - 1] == a + b[..n];
    }
  }
}
