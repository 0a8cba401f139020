/** The failure ledger: for each user, the paths whose decryption threw,
    in the order they were met. Entries are only ever added. */
module Ledger {
  import opened Paths

  type Failures = map<string, seq<Path>>

  /** The paths recorded for uid so far. */
  function Entries(failed: Failures, uid: string): seq<Path>
  {
    if uid in failed then failed[uid] else []
  }

  /** Records one failed path: appended to the user's entry, which is
      created on first use. */
  function AppendFailure(failed: Failures, uid: string, path: Path): (r: Failures)
    ensures r.Keys == failed.Keys + {uid}
    ensures r[uid] == Entries(failed, uid) + [path]
    ensures forall u :: u in failed && u != uid ==> r[u] == failed[u]
  {
    if uid in failed then failed[uid := failed[uid] + [path]] else failed[uid := [path]]
  }

  /** The ledger after the given paths of uid have been recorded in order. */
  function Record(failed: Failures, uid: string, paths: seq<Path>): Failures
  {
    if paths == [] then failed else failed[uid := Entries(failed, uid) + paths]
  }

  /** Recording one more path extends the recorded sequence by that path. */
  lemma RecordAppend(failed: Failures, uid: string, paths: seq<Path>, path: Path)
    ensures AppendFailure(Record(failed, uid, paths), uid, path) == Record(failed, uid, paths + [path])
  {
    var before := Record(failed, uid, paths);
    assert Entries(before, uid) == Entries(failed, uid) + paths;
    assert Entries(failed, uid) + paths + [path] == Entries(failed, uid) + (paths + [path]);
  }

  /** later keeps every user of earlier, with earlier's paths as a prefix. */
  ghost predicate Extends(earlier: Failures, later: Failures)
  {
    forall u :: u in earlier ==> u in later && earlier[u] <= later[u]
  }

  lemma RecordExtends(failed: Failures, uid: string, paths: seq<Path>)
    ensures Extends(failed, Record(failed, uid, paths))
    ensures Record(failed, uid, paths) == map[] <==> failed == map[] && paths == []
  {
    var r := Record(failed, uid, paths);
    if paths != [] {
      assert uid in r;
      forall u | u in failed
        ensures u in r && failed[u] <= r[u]
      {
        if u == uid {
          assert r[u] == failed[u] + paths;
        }
      }
    }
  }

  lemma ExtendsTransitive(a: Failures, b: Failures, c: Failures)
    requires Extends(a, b) && Extends(b, c)
    ensures Extends(a, c)
  {
    forall u | u in a
      ensures u in c && a[u] <= c[u]
    {
      assert a[u] <= b[u] <= c[u];
    }
  }

  /** A ledger that once held an entry is never empty again. */
  lemma ExtendsNonEmpty(earlier: Failures, later: Failures)
    requires Extends(earlier, later) && earlier != map[]
    ensures later != map[]
  {
    var u :| u in earlier;
    assert u in later;
  }
}
