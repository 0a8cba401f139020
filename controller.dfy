/** The master-key controller: decrypts every user's files, switches the
    configuration to master-key mode when nothing failed, and re-encrypts
    every user's files. */
module MasterKey {
  import opened Basics
  import opened Paths
  import opened Storage
  import opened Walk
  import opened Ledger
  import opened Config
  import opened Pagination
  import opened Rewrites
  import Strings

  /** The directory a user's walk starts from. */
  function UserRoot(uid: string): Path
  {
    "/" + uid + "/files"
  }

  /** A user's key storage and any user's files tree are disjoint: the
      two paths part at the character after the user's id ('/' against a
      longer id) or right after "files" ('/' against '_'). */
  lemma KeyStorageOutsideFiles(u: string, v: string, q: Path)
    requires u != [] && ValidName(u) && ValidName(v)
    requires Under(q, UserRoot(v))
    ensures !Under(q, Normalize(KeyStorage(u)))
  {
    var k, root := Normalize(KeyStorage(u)), UserRoot(v);
    assert u[0] in u;
    assert k == "/" + u + "/files_encryption";
    if |u| < |v| {
      assert v[|u|] in v;
      UnderApart(q, k, root, |u| + 1);
    } else if |v| < |u| {
      assert u[|v|] in u;
      UnderApart(q, k, root, |v| + 1);
    } else {
      UnderApart(q, k, root, |root|);
    }
  }

  /** Nothing lies under both a and b when a differs from b + "/" at a
      position both reach. */
  lemma UnderApart(q: Path, a: Path, b: Path, i: nat)
    requires i < |a| && i <= |b| && a[i] != (b + "/")[i]
    requires Under(q, b)
    ensures !Under(q, a)
  {
    assert q == b || q[i] == (b + "/")[i];
  }

  /** Deleting users' key storages leaves every user's files tree as it
      was: no path in it appears, disappears or changes. */
  lemma {:induction false} KeyStorageDeletionsSpareFiles<V>(m: map<Path, V>, uids: seq<string>, v: string)
    requires forall i :: 0 <= i < |uids| ==> uids[i] != [] && ValidName(uids[i])
    requires ValidName(v)
    ensures forall q :: Under(q, UserRoot(v)) ==> (q in StorageReplay(m, KeyStorageDeletions(uids)) <==> q in m)
    ensures forall q :: Under(q, UserRoot(v)) && q in m ==> StorageReplay(m, KeyStorageDeletions(uids))[q] == m[q]
    decreases |uids|
  {
    if uids != [] {
      var n := |uids| - 1;
      KeyStorageDeletionsSpareFiles(m, uids[..n], v);
      assert KeyStorageDeletions(uids) == KeyStorageDeletions(uids[..n]) + [DeleteKeyStorage(uids[n])];
      StorageReplaySnoc(m, KeyStorageDeletions(uids[..n]), DeleteKeyStorage(uids[n]));
      forall q | Under(q, UserRoot(v))
        ensures !Under(q, Normalize(KeyStorage(uids[n])))
      {
        KeyStorageOutsideFiles(uids[n], v, q);
      }
    } else {
      assert KeyStorageDeletions(uids) == [];
    }
  }

  /** The visited files whose listing flag is set, in visiting order. */
  function Select(visited: seq<Path>, flags: seq<bool>): (r: seq<Path>)
    requires |visited| == |flags|
    ensures |r| <= |visited|
    ensures forall p :: p in r ==> p in visited
  {
    if visited == [] then []
    else
      var n := |visited| - 1;
      Select(visited[..n], flags[..n]) + (if flags[n] then [visited[n]] else [])
  }

  lemma SelectSnoc(visited: seq<Path>, flags: seq<bool>, p: Path, b: bool)
    requires |visited| == |flags|
    ensures b ==> Select(visited + [p], flags + [b]) == Select(visited, flags) + [p]
    ensures !b ==> Select(visited + [p], flags + [b]) == Select(visited, flags)
  {
    assert (visited + [p])[..|visited|] == visited;
    assert (flags + [b])[..|flags|] == flags;
    assert Select(visited, flags) + [] == Select(visited, flags);
  }

  /** The rewritten paths whose rewrite throws past DecryptionFailed. */
  function OtherFailures(paths: seq<Path>, faults: map<Path, Fault>): (r: seq<Path>)
    ensures forall p :: p in r ==> p in paths && p in faults && faults[p].kind == OtherError
  {
    if paths == [] then []
    else
      var n := |paths| - 1;
      OtherFailures(paths[..n], faults)
        + (if paths[n] in faults && faults[paths[n]].kind == OtherError then [paths[n]] else [])
  }

  lemma OtherFailuresSnoc(paths: seq<Path>, faults: map<Path, Fault>, p: Path)
    ensures p in faults && faults[p].kind == OtherError ==>
      OtherFailures(paths + [p], faults) == OtherFailures(paths, faults) + [p]
    ensures !(p in faults && faults[p].kind == OtherError) ==>
      OtherFailures(paths + [p], faults) == OtherFailures(paths, faults)
  {
    assert (paths + [p])[..|paths|] == paths;
    assert OtherFailures(paths, faults) + [] == OtherFailures(paths, faults);
  }

  /** The files after the decrypt walk visited the given files, rewriting
      those listed as encrypted. */
  ghost function DecryptedFiles(files: Files, faults: map<Path, Fault>, session: set<string>, ts: nat,
                                visited: seq<Path>, flags: seq<bool>): Files
    requires |flags| == |visited|
  {
    RewriteAll(files, faults, session + {DecryptFlag}, Select(visited, flags), "decrypted", ts)
  }

  /** Over duplicate-free visits, exactly the flagged files are selected,
      each once. */
  lemma {:induction false} SelectFacts(visited: seq<Path>, flags: seq<bool>, i: nat)
    requires |visited| == |flags| && NoDup(visited) && i < |visited|
    ensures NoDup(Select(visited, flags))
    ensures visited[i] in Select(visited, flags) <==> flags[i]
    decreases |visited|
  {
    var n := |visited| - 1;
    var v, f := visited[..n], flags[..n];
    assert forall a :: 0 <= a < n ==> v[a] == visited[a];
    if n > 0 {
      SelectFacts(v, f, if i < n then i else 0);
    }
    var rest := Select(v, f);
    assert visited[n] !in v;
    assert visited[n] !in rest;
    assert Select(visited, flags) == rest + (if flags[n] then [visited[n]] else []);
    if i < n {
      assert visited[i] != visited[n];
    }
  }

  /** What the decrypt walk does to one visited file, when no visited file
      is the temporary of another: an encrypted file loses one layer and
      its temporary is gone, unless its rewrite fails, in which case it is
      left as it was after DecryptionFailed; a file that was not encrypted
      is never touched. */
  lemma DecryptWalkEffect(files: Files, faults: map<Path, Fault>, session: set<string>, ts: nat,
                          visited: seq<Path>, flags: seq<bool>, i: nat)
    requires FlagsListed(files, visited, flags) && NoDup(visited) && i < |visited| && visited[i] in files
    requires forall a, b :: 0 <= a < |visited| && 0 <= b < |visited| ==> visited[a] != Target(visited[b], "decrypted", ts)
    ensures var r := DecryptedFiles(files, faults, session, ts, visited, flags);
      var p := visited[i];
      && (IsEncrypted(files[p]) && p !in faults ==>
            p in r && r[p] == Transform(files[p], session + {DecryptFlag}) && r[p].layers + 1 == files[p].layers
            && Target(p, "decrypted", ts) !in r)
      && (IsEncrypted(files[p]) && p in faults && faults[p].kind == DecryptionFailed ==>
            p in r && r[p] == files[p] && Target(p, "decrypted", ts) !in r)
      && (!IsEncrypted(files[p]) ==> p in r && r[p] == files[p])
  {
    var sel := Select(visited, flags);
    var p := visited[i];
    SelectFacts(visited, flags, i);
    forall a, b | 0 <= a < |sel| && 0 <= b < |sel|
      ensures sel[a] != Target(sel[b], "decrypted", ts)
    {
      assert sel[a] in visited && sel[b] in visited;
      var a', b' :| 0 <= a' < |visited| && 0 <= b' < |visited| && visited[a'] == sel[a] && visited[b'] == sel[b];
    }
    forall b | 0 <= b < |sel|
      ensures p != Target(sel[b], "decrypted", ts)
    {
      assert sel[b] in visited;
      var b' :| 0 <= b' < |visited| && visited[b'] == sel[b];
    }
    assert Separate(sel, "decrypted", ts);
    assert flags[i] <==> IsEncrypted(files[p]);
    if flags[i] {
      var k :| 0 <= k < |sel| && sel[k] == p;
      RewriteAllEffect(files, faults, session + {DecryptFlag}, sel, "decrypted", ts, k);
    } else {
      RewriteAllOutside(files, faults, session + {DecryptFlag}, sel, "decrypted", ts, p);
    }
  }

  /** p is a file whose content is encrypted in files. */
  ghost predicate ListedEncrypted(files: Files, p: Path)
  {
    p in files && IsEncrypted(files[p])
  }

  /** The flag the walk noted for each visited file is whether that file
      was encrypted in files. */
  ghost predicate FlagsListed(files: Files, visited: seq<Path>, flags: seq<bool>)
  {
    && |flags| == |visited|
    && forall i :: 0 <= i < |visited| ==> (flags[i] <==> ListedEncrypted(files, visited[i]))
  }

  lemma FlagsListedSnoc(files: Files, visited: seq<Path>, flags: seq<bool>, p: Path)
    requires FlagsListed(files, visited, flags)
    ensures FlagsListed(files, visited + [p], flags + [ListedEncrypted(files, p)])
  {
    var visited', flags' := visited + [p], flags + [ListedEncrypted(files, p)];
    assert forall i :: 0 <= i < |visited| ==> visited'[i] == visited[i] && flags'[i] == flags[i];
  }

  /** The temporary of a directory entry is an entry of the same directory. */
  lemma TargetOfChild(dir: Path, name: string, tag: string, ts: nat)
    requires ValidName(name) && ValidName(tag)
    ensures Target(Child(dir, name), tag, ts) == Child(dir, name + "." + tag + "." + Strings.DecimalString(ts))
    ensures ValidName(name + "." + tag + "." + Strings.DecimalString(ts))
  {
    var digits := Strings.DecimalString(ts);
    assert forall k :: 0 <= k < |digits| ==> digits[k] != '/';
  }

  /** When the walk has just popped cur, no file it visited lies in cur,
      and none of their decrypt temporaries does either: the files visited
      so far are entries of other directories. */
  lemma NotFromListing(dirs: Dirs, skipShared: bool, seed: Path, stack: seq<Path>, popped: set<Path>,
                       visited: seq<Path>, links: map<Path, Link>, cur: Path, k: nat, v: Path, ts: nat)
    requires Inv(dirs, skipShared, seed, stack, popped, visited, links, cur, 0)
    requires cur in popped && k < |Items(dirs, cur)| && v in visited
    ensures v != ChildAt(dirs, cur, k) && ChildAt(dirs, cur, k) != Target(v, "decrypted", ts)
  {
    var i :| 0 <= i < |visited| && visited[i] == v;
    assert FoundFile(dirs, skipShared, links, visited[i]);
    var l := links[v];
    assert l.parent != cur;
    ChildAtInjective(dirs, cur, k, l.parent, l.index);
    var name := Items(dirs, l.parent)[l.index].name;
    TargetOfChild(l.parent, name, "decrypted", ts);
    ChildInjective(cur, Items(dirs, cur)[k].name, l.parent, name + "." + "decrypted" + "." + Strings.DecimalString(ts));
  }

  /** The listing of a directory the decrypt walk has just popped reports
      what the files held when the walk started: no rewrite so far touched
      one of its entries. */
  lemma ListingUnchanged(dirs: Dirs, skipShared: bool, seed: Path, stack: seq<Path>, popped: set<Path>,
                         visited: seq<Path>, flags: seq<bool>, links: map<Path, Link>, cur: Path,
                         files0: Files, faults: map<Path, Fault>, session: set<string>, ts: nat)
    requires Inv(dirs, skipShared, seed, stack, popped, visited, links, cur, 0)
    requires cur in popped && |flags| == |visited|
    ensures var files := RewriteAll(files0, faults, session, Select(visited, flags), "decrypted", ts);
      forall k :: 0 <= k < |Items(dirs, cur)| ==>
        InfoOf(dirs, files, cur, Items(dirs, cur)[k]) == InfoOf(dirs, files0, cur, Items(dirs, cur)[k])
  {
    var sel := Select(visited, flags);
    forall k | 0 <= k < |Items(dirs, cur)|
      ensures var files := RewriteAll(files0, faults, session, sel, "decrypted", ts);
        InfoOf(dirs, files, cur, Items(dirs, cur)[k]) == InfoOf(dirs, files0, cur, Items(dirs, cur)[k])
    {
      var c := ChildAt(dirs, cur, k);
      forall j | 0 <= j < |sel|
        ensures sel[j] != c && c != Target(sel[j], "decrypted", ts)
      {
        NotFromListing(dirs, skipShared, seed, stack, popped, visited, links, cur, k, sel[j], ts);
      }
      RewriteAllOutside(files0, faults, session, sel, "decrypted", ts, c);
    }
  }

  /** The rewrite of p throws an exception other than DecryptionFailed. */
  ghost predicate Throws(faults: map<Path, Fault>, p: Path)
  {
    p in faults && faults[p].kind == OtherError
  }

  /** files and session are what encrypting rewritten in order, starting
      from files0 and session0, leaves behind. */
  ghost predicate EncryptedBy(faults: map<Path, Fault>, ts: nat, files0: Files, session0: set<string>,
                              rewritten: seq<Path>, files: Files, session: set<string>)
  {
    && files == RewriteAll(files0, faults, session0 + {EncryptFlag}, rewritten, "encrypted", ts)
    && (rewritten == [] ==> session == session0)
    && (rewritten != [] ==> session == session0 + {EncryptFlag})
  }

  /** Encrypting a and then b is encrypting a + b. */
  lemma EncryptedByAppend(faults: map<Path, Fault>, ts: nat, f0: Files, s0: set<string>, a: seq<Path>,
                          f1: Files, s1: set<string>, b: seq<Path>, f2: Files, s2: set<string>)
    requires EncryptedBy(faults, ts, f0, s0, a, f1, s1)
    requires EncryptedBy(faults, ts, f1, s1, b, f2, s2)
    ensures EncryptedBy(faults, ts, f0, s0, a + b, f2, s2)
  {
    assert s0 + {EncryptFlag} + {EncryptFlag} == s0 + {EncryptFlag};
    assert s1 + {EncryptFlag} == s0 + {EncryptFlag};
    RewriteAllAppend(f0, faults, s0 + {EncryptFlag}, a, b, "encrypted", ts);
    if b == [] {
      assert a + b == a;
    }
  }

  /** A walk that ended at a throwing file, none before it throwing. */
  ghost predicate Stopped(faults: map<Path, Fault>, walk: seq<Path>)
  {
    && walk != []
    && Throws(faults, walk[|walk| - 1])
    && (forall k :: 0 <= k < |walk| - 1 ==> !Throws(faults, walk[k]))
  }

  /** Per user, in order: the walk and the popped directories of its
      encrypt pass, each handling only entries reachable in that user's
      tree and no file twice; the first done of them walked the whole tree
      and none of their files threw. */
  ghost predicate Walked(dirs: Dirs, faults: map<Path, Fault>, users: seq<string>, walks: seq<seq<Path>>,
                         poppeds: seq<set<Path>>, done: nat)
  {
    && |walks| == |users| && |poppeds| == |users| && done <= |users|
    && (forall i {:trigger Reached(dirs, false, UserRoot(users[i]), poppeds[i], walks[i])} ::
          0 <= i < |users| ==> Reached(dirs, false, UserRoot(users[i]), poppeds[i], walks[i]))
    && (forall i {:trigger Complete(dirs, false, UserRoot(users[i]), poppeds[i], walks[i])} ::
          0 <= i < done ==> Complete(dirs, false, UserRoot(users[i]), poppeds[i], walks[i]))
    && (forall i, k :: 0 <= i < done && 0 <= k < |walks[i]| ==> !Throws(faults, walks[i][k]))
  }

  /** One more user, whose walk reached only its own tree: counted as done
      when its walk completed without a throwing file. */
  lemma WalkedSnoc(dirs: Dirs, faults: map<Path, Fault>, users: seq<string>, walks: seq<seq<Path>>,
                   poppeds: seq<set<Path>>, uid: string, walk: seq<Path>, popped: set<Path>, finished: bool)
    requires Walked(dirs, faults, users, walks, poppeds, |users|)
    requires Reached(dirs, false, UserRoot(uid), popped, walk)
    requires finished ==> Complete(dirs, false, UserRoot(uid), popped, walk)
    requires finished ==> forall k :: 0 <= k < |walk| ==> !Throws(faults, walk[k])
    ensures Walked(dirs, faults, users + [uid], walks + [walk], poppeds + [popped], |users| + if finished then 1 else 0)
  {
    var users', walks', poppeds' := users + [uid], walks + [walk], poppeds + [popped];
    assert forall i :: 0 <= i < |users| ==> users'[i] == users[i] && walks'[i] == walks[i] && poppeds'[i] == poppeds[i];
  }

  /** The ledger after each decrypt pass so far, starting from failed0:
      the pass over done[i] recorded fails[i] against that user, leaving
      ledgers[i]. */
  ghost predicate LedgerTrail(failed0: Failures, done: seq<string>, fails: seq<seq<Path>>, ledgers: seq<Failures>)
  {
    && |fails| == |done| && |ledgers| == |done|
    && forall i :: 0 <= i < |done| ==> ledgers[i] == Record(LedgerBefore(failed0, ledgers, i), done[i], fails[i])
  }

  /** The ledger before pass i of a trail; with i == |ledgers|, the ledger
      after the last pass. */
  function LedgerBefore(failed0: Failures, ledgers: seq<Failures>, i: nat): Failures
    requires i <= |ledgers|
  {
    if i == 0 then failed0 else ledgers[i - 1]
  }

  /** One more pass extends the trail by the ledger it leaves. */
  lemma LedgerTrailSnoc(failed0: Failures, done: seq<string>, fails: seq<seq<Path>>, ledgers: seq<Failures>,
                        uid: string, userFails: seq<Path>)
    requires LedgerTrail(failed0, done, fails, ledgers)
    ensures var after := Record(LedgerBefore(failed0, ledgers, |ledgers|), uid, userFails);
      && LedgerTrail(failed0, done + [uid], fails + [userFails], ledgers + [after])
      && LedgerBefore(failed0, ledgers + [after], |ledgers| + 1) == after
  {
    var after := Record(LedgerBefore(failed0, ledgers, |ledgers|), uid, userFails);
    var done', fails', ledgers' := done + [uid], fails + [userFails], ledgers + [after];
    forall i | 0 <= i < |done'|
      ensures ledgers'[i] == Record(LedgerBefore(failed0, ledgers', i), done'[i], fails'[i])
    {
      assert LedgerBefore(failed0, ledgers', i) == LedgerBefore(failed0, ledgers, i);
      if i < |done| {
        assert done'[i] == done[i] && fails'[i] == fails[i] && ledgers'[i] == ledgers[i];
      }
    }
  }

  /** A trail's ledger is empty after its first n passes exactly when it
      started empty and none of those passes recorded a failure. */
  lemma {:induction false} LedgerEmptyUpTo(failed0: Failures, done: seq<string>, fails: seq<seq<Path>>,
                                           ledgers: seq<Failures>, n: nat)
    requires LedgerTrail(failed0, done, fails, ledgers) && n <= |ledgers|
    ensures LedgerBefore(failed0, ledgers, n) == map[] <==> failed0 == map[] && forall i :: 0 <= i < n ==> fails[i] == []
    decreases n
  {
    if n > 0 {
      LedgerEmptyUpTo(failed0, done, fails, ledgers, n - 1);
      RecordExtends(LedgerBefore(failed0, ledgers, n - 1), done[n - 1], fails[n - 1]);
    }
  }

  /** The listings and the files when one user's decrypt pass began, and
      the walk it made: the directories popped, the files visited and, for
      each, whether it was encrypted. */
  datatype Pass = Pass(dirs: Dirs, files: Files, popped: set<Path>, visited: seq<Path>, flags: seq<bool>)

  /** The pass over uid walked its whole tree, skipping shared entries,
      flagged exactly the files that were encrypted, and recorded exactly
      the flagged files whose rewrite threw past DecryptionFailed. */
  ghost predicate PassRecorded(faults: map<Path, Fault>, uid: string, userFails: seq<Path>, pass: Pass)
  {
    && Complete(pass.dirs, true, UserRoot(uid), pass.popped, pass.visited)
    && FlagsListed(pass.files, pass.visited, pass.flags)
    && userFails == OtherFailures(Select(pass.visited, pass.flags), faults)
  }

  /** Every user's pass so far is recorded as PassRecorded says. */
  ghost predicate PassesRecorded(faults: map<Path, Fault>, done: seq<string>, fails: seq<seq<Path>>, passes: seq<Pass>)
  {
    && |fails| == |done| && |passes| == |done|
    && forall i :: 0 <= i < |done| ==> PassRecorded(faults, done[i], fails[i], passes[i])
  }

  lemma PassesRecordedSnoc(faults: map<Path, Fault>, done: seq<string>, fails: seq<seq<Path>>, passes: seq<Pass>,
                           uid: string, userFails: seq<Path>, pass: Pass)
    requires PassesRecorded(faults, done, fails, passes)
    requires PassRecorded(faults, uid, userFails, pass)
    ensures PassesRecorded(faults, done + [uid], fails + [userFails], passes + [pass])
  {
    var done', fails', passes' := done + [uid], fails + [userFails], passes + [pass];
    assert forall i :: 0 <= i < |done| ==> done'[i] == done[i] && fails'[i] == fails[i] && passes'[i] == passes[i];
  }

  /** The listings a pass over uid leaves: its key storage is gone when the
      ledger is empty after the pass. */
  ghost function DirsAfterPass(uid: string, pass: Pass, deletes: bool): Dirs
  {
    if deletes then StorageAfter(pass.dirs, DeleteKeyStorage(uid)) else pass.dirs
  }

  /** The files a pass over uid leaves: the files it flagged are rewritten
      in visiting order with the decrypt flag set, then its key storage is
      removed when the ledger is empty after the pass. */
  ghost function FilesAfterPass(faults: map<Path, Fault>, session: set<string>, ts: nat, uid: string, pass: Pass,
                                deletes: bool): Files
    requires |pass.flags| == |pass.visited|
  {
    var rewritten := DecryptedFiles(pass.files, faults, session, ts, pass.visited, pass.flags);
    if deletes then StorageAfter(rewritten, DeleteKeyStorage(uid)) else rewritten
  }

  /** The decrypt flag is set for every rewrite of a pass, so the rest of
      the session is all that the files it leaves depend on. */
  lemma FilesAfterPassSession(faults: map<Path, Fault>, s1: set<string>, s2: set<string>, ts: nat, uid: string,
                              pass: Pass, deletes: bool)
    requires |pass.flags| == |pass.visited|
    requires s1 - {DecryptFlag} == s2 - {DecryptFlag}
    ensures FilesAfterPass(faults, s1, ts, uid, pass, deletes) == FilesAfterPass(faults, s2, ts, uid, pass, deletes)
  {
    assert s1 + {DecryptFlag} == s2 + {DecryptFlag} by {
      assert forall x :: x in s1 + {DecryptFlag} <==> x in s1 - {DecryptFlag} || x == DecryptFlag;
      assert forall x :: x in s2 + {DecryptFlag} <==> x in s2 - {DecryptFlag} || x == DecryptFlag;
    }
  }

  /** The listings before pass n of a run that started from dirs0; with
      n == |passes|, the listings after the last pass. */
  ghost function DirsBefore(dirs0: Dirs, done: seq<string>, ledgers: seq<Failures>, passes: seq<Pass>, n: nat): Dirs
    requires n <= |passes| && |passes| <= |done| && |passes| <= |ledgers|
  {
    if n == 0 then dirs0 else DirsAfterPass(done[n - 1], passes[n - 1], ledgers[n - 1] == map[])
  }

  /** The files before pass n of a run that started from files0; with
      n == |passes|, the files after the last pass. */
  ghost function FilesBefore(files0: Files, faults: map<Path, Fault>, session: set<string>, ts: nat, done: seq<string>,
                             ledgers: seq<Failures>, passes: seq<Pass>, n: nat): Files
    requires n <= |passes| && |passes| <= |done| && |passes| <= |ledgers|
    requires n > 0 ==> |passes[n - 1].flags| == |passes[n - 1].visited|
  {
    if n == 0 then files0
    else FilesAfterPass(faults, session, ts, done[n - 1], passes[n - 1], ledgers[n - 1] == map[])
  }

  /** Every pass of a run began on the listings and files that the pass
      before it left, and the first on dirs0 and files0. */
  ghost predicate PassesChained(dirs0: Dirs, files0: Files, faults: map<Path, Fault>, session: set<string>, ts: nat,
                                done: seq<string>, ledgers: seq<Failures>, passes: seq<Pass>)
  {
    && |passes| == |done| && |ledgers| == |done|
    && (forall i :: 0 <= i < |passes| ==> |passes[i].flags| == |passes[i].visited|)
    // triggered on the Before terms: a trigger on passes[i] would meet
    // passes[i - 1] in their bodies and loop
    && (forall i {:trigger DirsBefore(dirs0, done, ledgers, passes, i)} :: 0 <= i < |passes| ==>
          passes[i].dirs == DirsBefore(dirs0, done, ledgers, passes, i))
    && forall i {:trigger FilesBefore(files0, faults, session, ts, done, ledgers, passes, i)} :: 0 <= i < |passes| ==>
         passes[i].files == FilesBefore(files0, faults, session, ts, done, ledgers, passes, i)
  }

  /** A pass that began on the state the run left extends the chain, and
      the run then leaves what that pass leaves. */
  lemma PassesChainedSnoc(dirs0: Dirs, files0: Files, faults: map<Path, Fault>, session: set<string>, ts: nat,
                          done: seq<string>, ledgers: seq<Failures>, passes: seq<Pass>,
                          uid: string, after: Failures, pass: Pass)
    requires PassesChained(dirs0, files0, faults, session, ts, done, ledgers, passes)
    requires |pass.flags| == |pass.visited|
    requires pass.dirs == DirsBefore(dirs0, done, ledgers, passes, |passes|)
    requires pass.files == FilesBefore(files0, faults, session, ts, done, ledgers, passes, |passes|)
    ensures PassesChained(dirs0, files0, faults, session, ts, done + [uid], ledgers + [after], passes + [pass])
    ensures DirsBefore(dirs0, done + [uid], ledgers + [after], passes + [pass], |passes| + 1)
         == DirsAfterPass(uid, pass, after == map[])
    ensures FilesBefore(files0, faults, session, ts, done + [uid], ledgers + [after], passes + [pass], |passes| + 1)
         == FilesAfterPass(faults, session, ts, uid, pass, after == map[])
  {
    var done', ledgers', passes' := done + [uid], ledgers + [after], passes + [pass];
    forall i | 0 <= i <= |passes|
      ensures |passes'[i].flags| == |passes'[i].visited|
      ensures passes'[i].dirs == DirsBefore(dirs0, done', ledgers', passes', i)
      ensures passes'[i].files == FilesBefore(files0, faults, session, ts, done', ledgers', passes', i)
    {
      BeforeSnoc(dirs0, files0, faults, session, ts, done, ledgers, passes, uid, after, pass, i);
    }
    BeforeLast(dirs0, files0, faults, session, ts, done, ledgers, passes, uid, after, pass);
  }

  /** After one more pass, the run leaves what that pass leaves. */
  lemma BeforeLast(dirs0: Dirs, files0: Files, faults: map<Path, Fault>, session: set<string>, ts: nat,
                   done: seq<string>, ledgers: seq<Failures>, passes: seq<Pass>,
                   uid: string, after: Failures, pass: Pass)
    requires |passes| == |done| == |ledgers| && |pass.flags| == |pass.visited|
    ensures DirsBefore(dirs0, done + [uid], ledgers + [after], passes + [pass], |passes| + 1)
         == DirsAfterPass(uid, pass, after == map[])
    ensures FilesBefore(files0, faults, session, ts, done + [uid], ledgers + [after], passes + [pass], |passes| + 1)
         == FilesAfterPass(faults, session, ts, uid, pass, after == map[])
  {
    var n := |passes|;
    assert (done + [uid])[n] == uid && (ledgers + [after])[n] == after && (passes + [pass])[n] == pass;
  }

  /** Extending a run by one pass leaves the state before each earlier
      pass as it was. */
  lemma BeforeSnoc(dirs0: Dirs, files0: Files, faults: map<Path, Fault>, session: set<string>, ts: nat,
                   done: seq<string>, ledgers: seq<Failures>, passes: seq<Pass>,
                   uid: string, after: Failures, pass: Pass, i: nat)
    requires PassesChained(dirs0, files0, faults, session, ts, done, ledgers, passes)
    requires |pass.flags| == |pass.visited|
    requires i <= |passes| + 1
    ensures 0 < i ==> |(passes + [pass])[i - 1].flags| == |(passes + [pass])[i - 1].visited|
    ensures i <= |passes| ==>
      && DirsBefore(dirs0, done + [uid], ledgers + [after], passes + [pass], i) == DirsBefore(dirs0, done, ledgers, passes, i)
      && FilesBefore(files0, faults, session, ts, done + [uid], ledgers + [after], passes + [pass], i)
         == FilesBefore(files0, faults, session, ts, done, ledgers, passes, i)
  {
    if 0 < i && i <= |passes| {
      var j := i - 1;
      assert (done + [uid])[j] == done[j] && (ledgers + [after])[j] == ledgers[j] && (passes + [pass])[j] == passes[j];
    }
  }

  /** The first pass of a run began on the state the run started from. */
  lemma FirstPass(dirs0: Dirs, files0: Files, faults: map<Path, Fault>, session: set<string>, ts: nat,
                  done: seq<string>, ledgers: seq<Failures>, passes: seq<Pass>)
    requires PassesChained(dirs0, files0, faults, session, ts, done, ledgers, passes)
    ensures passes != [] ==> passes[0].dirs == dirs0 && passes[0].files == files0
  {
    if passes != [] {
      assert DirsBefore(dirs0, done, ledgers, passes, 0) == dirs0;
      assert FilesBefore(files0, faults, session, ts, done, ledgers, passes, 0) == files0;
    }
  }

  /** Every later pass of a run began on exactly the listings and files
      the pass before it left. */
  lemma LaterPass(dirs0: Dirs, files0: Files, faults: map<Path, Fault>, session: set<string>, ts: nat,
                  done: seq<string>, ledgers: seq<Failures>, passes: seq<Pass>, i: nat)
    requires PassesChained(dirs0, files0, faults, session, ts, done, ledgers, passes)
    requires 0 < i < |passes|
    ensures |passes[i - 1].flags| == |passes[i - 1].visited|
    ensures passes[i].dirs == DirsAfterPass(done[i - 1], passes[i - 1], ledgers[i - 1] == map[])
    ensures passes[i].files == FilesAfterPass(faults, session, ts, done[i - 1], passes[i - 1], ledgers[i - 1] == map[])
  {
    assert passes[i].dirs == DirsBefore(dirs0, done, ledgers, passes, i);
    assert passes[i].files == FilesBefore(files0, faults, session, ts, done, ledgers, passes, i);
  }

  /** No rewritten path is recorded exactly when none of them throws. */
  lemma {:induction false} OtherFailuresEmpty(paths: seq<Path>, faults: map<Path, Fault>)
    ensures OtherFailures(paths, faults) == [] <==> forall k :: 0 <= k < |paths| ==> !Throws(faults, paths[k])
    decreases |paths|
  {
    if paths != [] {
      var n := |paths| - 1;
      OtherFailuresEmpty(paths[..n], faults);
      assert forall k :: 0 <= k < n ==> paths[..n][k] == paths[k];
    }
  }

  /** Over duplicate-free visits whose flags say which files were
      encrypted, no flagged file is recorded exactly when no file that was
      encrypted throws past DecryptionFailed. */
  lemma SelectedClean(faults: map<Path, Fault>, files: Files, visited: seq<Path>, flags: seq<bool>)
    requires NoDup(visited) && FlagsListed(files, visited, flags)
    ensures OtherFailures(Select(visited, flags), faults) == [] <==>
      forall k :: 0 <= k < |visited| && ListedEncrypted(files, visited[k]) ==> !Throws(faults, visited[k])
  {
    var sel := Select(visited, flags);
    OtherFailuresEmpty(sel, faults);
    forall k | 0 <= k < |visited|
      ensures visited[k] in sel <==> flags[k]
    {
      SelectFacts(visited, flags, k);
    }
    if forall j :: 0 <= j < |sel| ==> !Throws(faults, sel[j]) {
      forall k | 0 <= k < |visited| && ListedEncrypted(files, visited[k])
        ensures !Throws(faults, visited[k])
      {
        var j :| 0 <= j < |sel| && sel[j] == visited[k];
      }
    } else {
      var j :| 0 <= j < |sel| && Throws(faults, sel[j]);
      assert sel[j] in sel;
      var k :| 0 <= k < |visited| && visited[k] == sel[j];
      assert flags[k];
    }
  }

  /** A pass records no failure exactly when no file that was encrypted
      when it began throws past DecryptionFailed. */
  lemma PassClean(faults: map<Path, Fault>, uid: string, userFails: seq<Path>, pass: Pass)
    requires PassRecorded(faults, uid, userFails, pass)
    ensures userFails == [] <==>
      forall k :: 0 <= k < |pass.visited| && ListedEncrypted(pass.files, pass.visited[k]) ==> !Throws(faults, pass.visited[k])
  {
    assert Reached(pass.dirs, true, UserRoot(uid), pass.popped, pass.visited);
    SelectedClean(faults, pass.files, pass.visited, pass.flags);
  }

  /** Over a run of passes, the ledger ends empty exactly when it started
      empty and no file that was encrypted when its user's pass began
      threw past DecryptionFailed. */
  lemma CleanRun(faults: map<Path, Fault>, failed0: Failures, done: seq<string>, fails: seq<seq<Path>>,
                 ledgers: seq<Failures>, passes: seq<Pass>)
    requires LedgerTrail(failed0, done, fails, ledgers) && PassesRecorded(faults, done, fails, passes)
    ensures LedgerBefore(failed0, ledgers, |ledgers|) == map[] <==>
      && failed0 == map[]
      && forall i, k :: 0 <= i < |passes| && 0 <= k < |passes[i].visited| && ListedEncrypted(passes[i].files, passes[i].visited[k]) ==>
           !Throws(faults, passes[i].visited[k])
  {
    LedgerEmptyUpTo(failed0, done, fails, ledgers, |ledgers|);
    forall i | 0 <= i < |passes|
      ensures fails[i] == [] <==>
        forall k :: 0 <= k < |passes[i].visited| && ListedEncrypted(passes[i].files, passes[i].visited[k]) ==>
          !Throws(faults, passes[i].visited[k])
    {
      PassClean(faults, done[i], fails[i], passes[i]);
    }
  }

  /** The key storage of the user of pass i was deleted, which the first
      deleted passes did, exactly when the ledger was still empty after
      pass i. */
  ghost predicate Gated(ledgers: seq<Failures>, deleted: nat)
  {
    && deleted <= |ledgers|
    && forall i :: 0 <= i < |ledgers| ==> (i < deleted <==> ledgers[i] == map[])
  }

  /** The decrypt passes over the users done so far, starting from the
      ledger failed0, the journal journal0 and the listings dirs0: the
      ledger grew pass by pass, the key storage of exactly the users after
      whose pass the ledger was still empty was deleted, in order, and a
      user without that deletion leaves the ledger non-empty. */
  ghost predicate DecryptProgress(failed0: Failures, journal0: seq<Step>, dirs0: Dirs, done: seq<string>,
                                  fails: seq<seq<Path>>, ledgers: seq<Failures>, deleted: nat,
                                  failed: Failures, journal: seq<Step>, dirs: Dirs)
  {
    && LedgerTrail(failed0, done, fails, ledgers)
    && failed == LedgerBefore(failed0, ledgers, |ledgers|)
    && Extends(failed0, failed)
    && Gated(ledgers, deleted)
    && (deleted < |done| ==> failed != map[])
    && journal == journal0 + KeyStorageDeletions(done[..deleted])
    && dirs == StorageReplay(dirs0, KeyStorageDeletions(done[..deleted]))
  }

  /** One more user's pass keeps the progress: its failures are recorded,
      and its key storage is deleted exactly when the ledger stays empty. */
  lemma DecryptProgressStep(failed0: Failures, journal0: seq<Step>, dirs0: Dirs, done: seq<string>,
                            fails: seq<seq<Path>>, ledgers: seq<Failures>, deleted: nat,
                            uid: string, userFails: seq<Path>,
                            failed1: Failures, journal1: seq<Step>, dirs1: Dirs,
                            failed2: Failures, journal2: seq<Step>, dirs2: Dirs)
    returns (deleted': nat)
    requires DecryptProgress(failed0, journal0, dirs0, done, fails, ledgers, deleted, failed1, journal1, dirs1)
    requires failed2 == Record(failed1, uid, userFails)
    requires failed2 == map[] ==> journal2 == journal1 + [DeleteKeyStorage(uid)] && dirs2 == StorageAfter(dirs1, DeleteKeyStorage(uid))
    requires failed2 != map[] ==> journal2 == journal1 && dirs2 == dirs1
    ensures deleted' == if failed2 == map[] then deleted + 1 else deleted
    ensures DecryptProgress(failed0, journal0, dirs0, done + [uid], fails + [userFails], ledgers + [failed2], deleted',
                            failed2, journal2, dirs2)
  {
    RecordExtends(failed1, uid, userFails);
    ExtendsTransitive(failed0, failed1, failed2);
    LedgerTrailSnoc(failed0, done, fails, ledgers, uid, userFails);
    deleted' := GatedSnoc(ledgers, deleted, failed1, failed2);
    TakeSnoc(done, uid, deleted);
    if failed2 == map[] {
      DeletionSnoc(journal0, dirs0, done, uid, journal1, dirs1);
    }
  }

  /** The gate after one more pass: the pass is counted among the deleting
      ones exactly when the ledger it leaves is empty. */
  lemma GatedSnoc(ledgers: seq<Failures>, deleted: nat, before: Failures, after: Failures) returns (deleted': nat)
    requires Gated(ledgers, deleted) && (deleted < |ledgers| ==> before != map[])
    requires Extends(before, after)
    ensures deleted' == if after == map[] then deleted + 1 else deleted
    ensures Gated(ledgers + [after], deleted')
    ensures deleted' < |ledgers| + 1 ==> after != map[]
  {
    if before != map[] {
      ExtendsNonEmpty(before, after);
    }
    deleted' := if after == map[] then deleted + 1 else deleted;
    var ledgers' := ledgers + [after];
    assert forall i :: 0 <= i < |ledgers| ==> ledgers'[i] == ledgers[i];
  }

  class MasterKeyController {
    const view: View
    /** The users of each backend, in the order the backend returns them. */
    const backends: seq<seq<string>>
    /** Paths that could not be decrypted, per user. */
    var failed: Failures
    var session: set<string>
    var appValues: AppValues
    /** The irreversible steps committed so far, in order. */
    ghost var journal: seq<Step>

    constructor (view: View, backends: seq<seq<string>>, appValues: AppValues)
      ensures this.view == view && this.backends == backends && this.appValues == appValues
      ensures failed == map[] && session == {} && journal == []
    {
      this.view := view;
      this.backends := backends;
      this.appValues := appValues;
      failed := map[];
      session := {};
      journal := [];
    }

    /** Commits one irreversible step to the configuration or the storage. */
    method Commit(step: Step)
      requires view.Valid()
      modifies this`appValues, this`journal, view`dirs, view`files
      ensures view.Valid()
      ensures appValues == Apply(old(appValues), step)
      ensures journal == old(journal) + [step]
      ensures view.dirs == StorageAfter(old(view.dirs), step)
      ensures view.files == StorageAfter(old(view.files), step)
    {
      match step {
        case DeleteAll(path) => view.DeleteAll(path);
        case DeleteKeyStorage(uid) => view.DeleteAll(KeyStorage(uid));
        case _ =>
      }
      appValues := Apply(appValues, step);
      journal := journal + [step];
    }

    /** Decrypts one file by copying it to path.decrypted.<ts> with the
        decryptAllCmd flag set and renaming the copy over the source. */
    method DecryptFile(path: Path, ts: nat) returns (r: Completion<bool>)
      modifies this`session, view`files
      ensures var rw := Rewrite(old(view.files), view.faults, old(session) + {DecryptFlag}, path, Target(path, "decrypted", ts));
        view.files == rw.files && r == rw.result
      ensures r == Normal(true) ==> session == old(session) - {DecryptFlag}
      ensures r != Normal(true) ==> session == old(session) + {DecryptFlag}
    {
      var source := path;
      var target := Target(path, "decrypted", ts);
      session := session + {DecryptFlag};
      var copied := view.Copy(source, target, session);
      if copied.Raised? {
        if copied.kind == DecryptionFailed {
          if view.FileExists(target) {
            view.Unlink(target);
          }
          return Normal(false);
        }
        return Abrupt(copied.kind);
      }
      view.Rename(target, source);
      session := session - {DecryptFlag};
      return Normal(true);
    }

    /** Encrypts one file the same way through path.encrypted.<ts>, with the
        encryptAllCmd flag set and never removed. */
    method EncryptFile(path: Path, ts: nat) returns (r: Completion<bool>)
      modifies this`session, view`files
      ensures var rw := Rewrite(old(view.files), view.faults, old(session) + {EncryptFlag}, path, Target(path, "encrypted", ts));
        view.files == rw.files && r == rw.result
      ensures session == old(session) + {EncryptFlag}
    {
      var source := path;
      var target := Target(path, "encrypted", ts);
      session := session + {EncryptFlag};
      var copied := view.Copy(source, target, session);
      if copied.Raised? {
        if copied.kind == DecryptionFailed {
          if view.FileExists(target) {
            view.Unlink(target);
          }
          return Normal(false);
        }
        return Abrupt(copied.kind);
      }
      view.Rename(target, source);
      session := session + {EncryptFlag};
      return Normal(true);
    }


    /** The decrypt walk of uid while entries 0..upto-1 of cur are handled:
        the walk invariant over the listings, which do not change, each
        visited file flagged exactly when it was encrypted in files0, the
        files as the rewrites of the flagged visited files left them, and
        the ledger extended by the rewrites that threw. */
    ghost predicate Decrypting(uid: string, ts: nat, dirs: Dirs, files0: Files, failed0: Failures, session0: set<string>,
                               stack: seq<Path>, popped: set<Path>, visited: seq<Path>, flags: seq<bool>,
                               links: map<Path, Link>, cur: Path, upto: nat)
      reads this, view
    {
      && view.dirs == dirs
      && Inv(dirs, true, UserRoot(uid), stack, popped, visited, links, cur, upto)
      && FlagsListed(files0, visited, flags)
      && Decrypted(uid, ts, files0, failed0, session0, Select(visited, flags))
    }

    /** The files, the ledger and the session after the given paths of uid
        were rewritten in order, starting from files0, failed0, session0. */
    ghost predicate Decrypted(uid: string, ts: nat, files0: Files, failed0: Failures, session0: set<string>,
                              rewritten: seq<Path>)
      reads this, view
    {
      && view.files == RewriteAll(files0, view.faults, session0 + {DecryptFlag}, rewritten, "decrypted", ts)
      && failed == Record(failed0, uid, OtherFailures(rewritten, view.faults))
      && session - {DecryptFlag} == session0 - {DecryptFlag}
    }

    /** Decrypts a file listed as encrypted; an exception other than
        DecryptionFailed is caught and the path recorded against uid. */
    method DecryptListed(uid: string, ts: nat, path: Path, ghost files0: Files, ghost failed0: Failures,
                         ghost session0: set<string>, ghost rewritten: seq<Path>)
      requires Decrypted(uid, ts, files0, failed0, session0, rewritten)
      modifies this`failed, this`session, view`files
      ensures Decrypted(uid, ts, files0, failed0, session0, rewritten + [path])
    {
      assert session + {DecryptFlag} == (session - {DecryptFlag}) + {DecryptFlag};
      assert session0 + {DecryptFlag} == (session0 - {DecryptFlag}) + {DecryptFlag};
      var r := DecryptFile(path, ts);
      RewriteAllSnoc(files0, view.faults, session0 + {DecryptFlag}, rewritten, path, "decrypted", ts);
      OtherFailuresSnoc(rewritten, view.faults, path);
      if r.Abrupt? {
        RecordAppend(failed0, uid, OtherFailures(rewritten, view.faults), path);
        failed := AppendFailure(failed, uid, path);
      }
    }

    /** One entry of a listing in the decrypt walk: shared entries are
        skipped, directories pushed, and files decrypted when they are
        listed as encrypted; an exception from the rewrite is recorded
        against uid and the walk goes on. */
    method DecryptEntry(uid: string, ts: nat, root: Path, file: FileInfo, directories: seq<Path>, j: nat,
                        ghost dirs: Dirs, ghost files0: Files, ghost failed0: Failures, ghost session0: set<string>,
                        ghost popped: set<Path>, ghost visited: seq<Path>, ghost flags: seq<bool>, ghost links: map<Path, Link>)
      returns (stack: seq<Path>, ghost visited': seq<Path>, ghost flags': seq<bool>, ghost links': map<Path, Link>)
      requires Decrypting(uid, ts, dirs, files0, failed0, session0, directories, popped, visited, flags, links, root, j)
      requires root in popped && j < |Items(dirs, root)|
      requires file == InfoOf(dirs, files0, root, Items(dirs, root)[j])
      modifies this`failed, this`session, view`files
      ensures Decrypting(uid, ts, dirs, files0, failed0, session0, stack, popped, visited', flags', links', root, j + 1)
    {
      stack, visited', flags', links' := directories, visited, flags, links;
      ghost var seed := UserRoot(uid);
      if file.shared {
        SkipStep(dirs, true, seed, directories, popped, visited, links, root, j);
        return;
      }
      var path := Child(root, file.name);
      if view.IsDir(path) {
        PushStep(dirs, true, seed, directories, popped, visited, links, root, j);
        stack, links' := directories + [path], links[path := Link(root, j)];
        return;
      }
      LeafStep(dirs, true, seed, directories, popped, visited, links, root, j);
      FlagsListedSnoc(files0, visited, flags, path);
      visited', links', flags' := visited + [path], links[path := Link(root, j)], flags + [file.encrypted];
      DecryptLeaf(uid, ts, path, file.encrypted, files0, failed0, session0, visited, flags);
    }

    /** A file entry of the decrypt walk: it is visited, and rewritten when
        it is listed as encrypted. */
    method DecryptLeaf(uid: string, ts: nat, path: Path, encrypted: bool, ghost files0: Files, ghost failed0: Failures,
                       ghost session0: set<string>, ghost visited: seq<Path>, ghost flags: seq<bool>)
      requires |flags| == |visited| && Decrypted(uid, ts, files0, failed0, session0, Select(visited, flags))
      modifies this`failed, this`session, view`files
      ensures Decrypted(uid, ts, files0, failed0, session0, Select(visited + [path], flags + [encrypted]))
    {
      ghost var rewritten := Select(visited, flags);
      SelectSnoc(visited, flags, path, encrypted);
      if encrypted {
        DecryptListed(uid, ts, path, files0, failed0, session0, rewritten);
      }
    }

    /** Lists the directory root and handles its entries in listing order. */
    method DecryptListing(uid: string, ts: nat, root: Path, directories: seq<Path>,
                          ghost dirs: Dirs, ghost files0: Files, ghost failed0: Failures, ghost session0: set<string>,
                          ghost popped: set<Path>, ghost visited: seq<Path>, ghost flags: seq<bool>, ghost links: map<Path, Link>)
      returns (stack: seq<Path>, ghost visited': seq<Path>, ghost flags': seq<bool>, ghost links': map<Path, Link>)
      requires Decrypting(uid, ts, dirs, files0, failed0, session0, directories, popped, visited, flags, links, root, 0)
      requires root in popped
      modifies this`failed, this`session, view`files
      ensures Decrypting(uid, ts, dirs, files0, failed0, session0, stack, popped, visited', flags', links', root, |Items(dirs, root)|)
    {
      stack, visited', flags', links' := directories, visited, flags, links;
      var content := view.DirectoryContent(root);
      ListingUnchanged(dirs, true, UserRoot(uid), directories, popped, visited, flags, links, root,
                       files0, view.faults, session0 + {DecryptFlag}, ts);
      // the listing reports the files as they stood when the walk started
      assert forall k :: 0 <= k < |content| ==> content[k] == InfoOf(dirs, files0, root, Items(dirs, root)[k]);
      for i := 0 to |content|
        invariant forall k :: 0 <= k < |content| ==> content[k] == InfoOf(dirs, files0, root, Items(dirs, root)[k])
        invariant Decrypting(uid, ts, dirs, files0, failed0, session0, stack, popped, visited', flags', links', root, i)
      {
        stack, visited', flags', links' :=
          DecryptEntry(uid, ts, root, content[i], stack, i, dirs, files0, failed0, session0, popped, visited', flags', links');
      }
    }

    /** Walks the tree of uid from /<uid>/files with an explicit stack,
        decrypting the files listed as encrypted; shared entries are left
        alone and the listings do not change. */
    method DecryptTree(uid: string, ts: nat)
      returns (ghost popped: set<Path>, ghost visited: seq<Path>, ghost flags: seq<bool>)
      requires view.Valid()
      modifies this`failed, this`session, view`files
      // every file reachable through unshared directories is visited exactly once
      ensures Complete(view.dirs, true, UserRoot(uid), popped, visited)
      // each visited file is flagged exactly when it was encrypted; the
      // flagged files were rewritten in visiting order and the rewrites
      // that threw are recorded against uid
      ensures FlagsListed(old(view.files), visited, flags)
      ensures Decrypted(uid, ts, old(view.files), old(failed), old(session), Select(visited, flags))
    {
      ghost var dirs, files0, failed0, session0 := view.dirs, view.files, failed, session;
      var seed := UserRoot(uid);
      var directories := [seed];
      ghost var links: map<Path, Link> := map[];
      ghost var cur := seed;
      popped, visited, flags := {}, [], [];
      InitialInv(dirs, true, seed);
      while directories != []
        invariant Decrypting(uid, ts, dirs, files0, failed0, session0, directories, popped, visited, flags, links, cur, |Items(dirs, cur)|)
        invariant popped <= dirs.Keys + {seed}
        decreases |(dirs.Keys + {seed}) - popped|
      {
        PopStep(dirs, true, seed, directories, popped, visited, links, cur);
        var root := directories[|directories| - 1];
        directories := directories[..|directories| - 1];
        PopDecreases(dirs.Keys + {seed}, popped, root);
        popped, cur := popped + {root}, root;
        assert Decrypting(uid, ts, dirs, files0, failed0, session0, directories, popped, visited, flags, links, root, 0);
        directories, visited, flags, links :=
          DecryptListing(uid, ts, root, directories, dirs, files0, failed0, session0, popped, visited, flags, links);
      }
      FinalStep(dirs, true, seed, popped, visited, links, cur);
    }

    /** decryptUsersFiles: the walk, then, when the ledger is still empty,
        the deletion of the user's key storage. */
    method DecryptUsersFiles(uid: string, ts: nat)
      returns (ghost popped: set<Path>, ghost visited: seq<Path>, ghost flags: seq<bool>)
      requires view.Valid()
      modifies this`failed, this`session, this`appValues, this`journal, view`dirs, view`files
      ensures view.Valid()
      ensures Complete(old(view.dirs), true, UserRoot(uid), popped, visited)
      // each visited file is flagged exactly when it was encrypted
      ensures FlagsListed(old(view.files), visited, flags)
      // the flagged files were rewritten in visiting order; the key storage
      // goes only when no failure is recorded
      ensures failed == map[] ==>
        && journal == old(journal) + [DeleteKeyStorage(uid)]
        && view.dirs == StorageAfter(old(view.dirs), DeleteKeyStorage(uid))
        && view.files == StorageAfter(DecryptedFiles(old(view.files), view.faults, old(session), ts, visited, flags),
                                      DeleteKeyStorage(uid))
      ensures failed != map[] ==>
        && journal == old(journal) && view.dirs == old(view.dirs)
        && view.files == DecryptedFiles(old(view.files), view.faults, old(session), ts, visited, flags)
      ensures failed == Record(old(failed), uid, OtherFailures(Select(visited, flags), view.faults))
      ensures appValues == old(appValues)
      ensures session - {DecryptFlag} == old(session) - {DecryptFlag}
    {
      popped, visited, flags := DecryptTree(uid, ts);
      if failed == map[] {
        Commit(DeleteKeyStorage(uid));
      }
    }

    /** The files and the session after the given paths were encrypted in
        order, starting from files0 and session0. */
    ghost predicate Encrypted(ts: nat, files0: Files, session0: set<string>, rewritten: seq<Path>)
      reads this, view
    {
      EncryptedBy(view.faults, ts, files0, session0, rewritten, view.files, session)
    }

    /** The encrypt walk of uid while entries 0..upto-1 of cur are handled
        and no rewrite has thrown yet. */
    ghost predicate Encrypting(uid: string, ts: nat, dirs: Dirs, files0: Files, session0: set<string>,
                               stack: seq<Path>, popped: set<Path>, visited: seq<Path>,
                               links: map<Path, Link>, cur: Path, upto: nat)
      reads this, view
    {
      && view.dirs == dirs
      && Inv(dirs, false, UserRoot(uid), stack, popped, visited, links, cur, upto)
      && Encrypted(ts, files0, session0, visited)
      && (forall k :: 0 <= k < |visited| ==> !Throws(view.faults, visited[k]))
    }

    /** The encrypt walk stopped by the rewrite of its last visited file. */
    ghost predicate EncryptAborted(ts: nat, files0: Files, session0: set<string>, visited: seq<Path>)
      reads this, view
    {
      Encrypted(ts, files0, session0, visited) && Stopped(view.faults, visited)
    }

    /** encryptFile as one step of the walk: the files and the session
        account for one more rewrite. */
    method EncryptNext(ts: nat, path: Path, ghost files0: Files, ghost session0: set<string>, ghost rewritten: seq<Path>)
      returns (r: Completion<bool>)
      requires Encrypted(ts, files0, session0, rewritten)
      modifies this`session, view`files
      ensures Encrypted(ts, files0, session0, rewritten + [path])
      ensures r.Abrupt? <==> Throws(view.faults, path)
      ensures r.Abrupt? ==> r.kind == OtherError
    {
      assert session + {EncryptFlag} == session0 + {EncryptFlag};
      r := EncryptFile(path, ts);
      RewriteAllSnoc(files0, view.faults, session0 + {EncryptFlag}, rewritten, path, "encrypted", ts);
    }

    /** A file entry of the encrypt walk: it is encrypted, and the walk
        goes on exactly when its rewrite did not throw. */
    method EncryptLeaf(ts: nat, path: Path, ghost files0: Files, ghost session0: set<string>, ghost visited: seq<Path>)
      returns (r: Completion<()>)
      requires Encrypted(ts, files0, session0, visited)
      requires forall k :: 0 <= k < |visited| ==> !Throws(view.faults, visited[k])
      modifies this`session, view`files
      ensures r.Normal? ==>
        && Encrypted(ts, files0, session0, visited + [path])
        && forall k :: 0 <= k < |visited| + 1 ==> !Throws(view.faults, (visited + [path])[k])
      ensures r.Abrupt? ==> EncryptAborted(ts, files0, session0, visited + [path]) && r.kind == OtherError
    {
      var res := EncryptNext(ts, path, files0, session0, visited);
      ghost var visited' := visited + [path];
      assert visited'[|visited|] == path;
      assert forall k :: 0 <= k < |visited| ==> visited'[k] == visited[k];
      r := if res.Abrupt? then Abrupt(res.kind) else Normal(());
    }

    /** One entry of a listing in the encrypt walk: directories are pushed,
        everything else is encrypted; an exception from the rewrite other
        than DecryptionFailed ends the walk. */
    method EncryptEntry(uid: string, ts: nat, root: Path, file: FileInfo, directories: seq<Path>, j: nat,
                        ghost dirs: Dirs, ghost files0: Files, ghost session0: set<string>,
                        ghost popped: set<Path>, ghost visited: seq<Path>, ghost links: map<Path, Link>)
      returns (r: Completion<()>, stack: seq<Path>, ghost visited': seq<Path>, ghost links': map<Path, Link>)
      requires Encrypting(uid, ts, dirs, files0, session0, directories, popped, visited, links, root, j)
      requires root in popped && j < |Items(dirs, root)| && file.name == Items(dirs, root)[j].name
      modifies this`session, view`files
      ensures r.Normal? ==> Encrypting(uid, ts, dirs, files0, session0, stack, popped, visited', links', root, j + 1)
      ensures r.Abrupt? ==> EncryptAborted(ts, files0, session0, visited') && r.kind == OtherError
      ensures r.Abrupt? ==> IsLeaf(dirs, false, root, j) && visited' == visited + [ChildAt(dirs, root, j)]
    {
      stack, visited', links' := directories, visited, links;
      ghost var seed := UserRoot(uid);
      var path := Child(root, file.name);
      if view.IsDir(path) {
        PushStep(dirs, false, seed, directories, popped, visited, links, root, j);
        stack, links' := directories + [path], links[path := Link(root, j)];
        r := Normal(());
        return;
      }
      LeafStep(dirs, false, seed, directories, popped, visited, links, root, j);
      visited', links' := visited + [path], links[path := Link(root, j)];
      assert Inv(dirs, false, seed, directories, popped, visited', links', root, j + 1);
      r := EncryptLeaf(ts, path, files0, session0, visited);
    }

    /** Lists the directory root and handles its entries in listing order,
        stopping at the first exception. */
    method EncryptListing(uid: string, ts: nat, root: Path, directories: seq<Path>,
                          ghost dirs: Dirs, ghost files0: Files, ghost session0: set<string>,
                          ghost popped: set<Path>, ghost visited: seq<Path>, ghost links: map<Path, Link>)
      returns (r: Completion<()>, stack: seq<Path>, ghost visited': seq<Path>, ghost links': map<Path, Link>)
      requires Encrypting(uid, ts, dirs, files0, session0, directories, popped, visited, links, root, 0)
      requires root in popped
      modifies this`session, view`files
      ensures r.Normal? ==> Encrypting(uid, ts, dirs, files0, session0, stack, popped, visited', links', root, |Items(dirs, root)|)
      ensures r.Abrupt? ==> EncryptAborted(ts, files0, session0, visited') && r.kind == OtherError
      ensures r.Abrupt? ==> Reached(dirs, false, UserRoot(uid), popped, visited')
    {
      r, stack, visited', links' := Normal(()), directories, visited, links;
      var content := view.DirectoryContent(root);
      assert forall k :: 0 <= k < |content| ==> content[k].name == Items(dirs, root)[k].name;
      for i := 0 to |content|
        invariant r.Normal?
        invariant forall k :: 0 <= k < |content| ==> content[k].name == Items(dirs, root)[k].name
        invariant Encrypting(uid, ts, dirs, files0, session0, stack, popped, visited', links', root, i)
      {
        ghost var stack0, visited0, links0 := stack, visited', links';
        assert Inv(dirs, false, UserRoot(uid), stack0, popped, visited0, links0, root, i);
        r, stack, visited', links' :=
          EncryptEntry(uid, ts, root, content[i], stack, i, dirs, files0, session0, popped, visited', links');
        if r.Abrupt? {
          LeafReached(dirs, false, UserRoot(uid), stack0, popped, visited0, links0, root, i);
          return;
        }
      }
    }

    /** encryptUsersFiles: walks the tree of uid from /<uid>/files with an
        explicit stack and encrypts every file, shared or not; the first
        exception other than DecryptionFailed ends the walk and propagates. */
    method EncryptUsersFiles(uid: string, ts: nat)
      returns (r: Completion<()>, ghost popped: set<Path>, ghost visited: seq<Path>)
      requires view.Valid()
      modifies this`session, view`files
      // a walk that completes visits every reachable file exactly once and
      // encrypts them in visiting order, none of them throwing
      ensures r.Normal? ==>
        && Complete(view.dirs, false, UserRoot(uid), popped, visited)
        && Encrypted(ts, old(view.files), old(session), visited)
        && (forall k :: 0 <= k < |visited| ==> !Throws(view.faults, visited[k]))
      // a walk that stops does so at the first file whose rewrite throws,
      // having visited reachable files of the tree, none of them twice
      ensures r.Abrupt? ==> EncryptAborted(ts, old(view.files), old(session), visited) && r.kind == OtherError
      ensures r.Abrupt? ==> Reached(old(view.dirs), false, UserRoot(uid), popped, visited)
    {
      ghost var dirs, files0, session0 := view.dirs, view.files, session;
      var seed := UserRoot(uid);
      var directories := [seed];
      ghost var links: map<Path, Link> := map[];
      ghost var cur := seed;
      r, popped, visited := Normal(()), {}, [];
      InitialInv(dirs, false, seed);
      while directories != []
        invariant r.Normal?
        invariant Encrypting(uid, ts, dirs, files0, session0, directories, popped, visited, links, cur, |Items(dirs, cur)|)
        invariant popped <= dirs.Keys + {seed}
        decreases |(dirs.Keys + {seed}) - popped|
      {
        PopStep(dirs, false, seed, directories, popped, visited, links, cur);
        var root := directories[|directories| - 1];
        directories := directories[..|directories| - 1];
        PopDecreases(dirs.Keys + {seed}, popped, root);
        popped, cur := popped + {root}, root;
        assert Encrypting(uid, ts, dirs, files0, session0, directories, popped, visited, links, root, 0);
        r, directories, visited, links :=
          EncryptListing(uid, ts, root, directories, dirs, files0, session0, popped, visited, links);
        if r.Abrupt? {
          return;
        }
      }
      FinalStep(dirs, false, seed, popped, visited, links, cur);
    }

    /** The encrypt passes over users so far: the first done of them walked
        their whole tree without an exception, and the files and the session
        are what encrypting all their walks in order leaves behind. */
    ghost predicate UsersEncrypted(ts: nat, dirs: Dirs, files0: Files, session0: set<string>,
                                   users: seq<string>, walks: seq<seq<Path>>, poppeds: seq<set<Path>>, done: nat)
      reads this, view
    {
      && WellFormed(dirs) && view.dirs == dirs
      && Walked(dirs, view.faults, users, walks, poppeds, done)
      && Encrypted(ts, files0, session0, Flatten(walks))
    }

    /** The encrypt pass over one user, appended to the passes so far. */
    method EncryptUser(uid: string, ts: nat, ghost dirs: Dirs, ghost files0: Files, ghost session0: set<string>,
                       ghost processed: seq<string>, ghost walks: seq<seq<Path>>, ghost poppeds: seq<set<Path>>)
      returns (r: Completion<()>, ghost processed': seq<string>, ghost walks': seq<seq<Path>>, ghost poppeds': seq<set<Path>>)
      requires UsersEncrypted(ts, dirs, files0, session0, processed, walks, poppeds, |processed|)
      modifies this`session, view`files
      ensures processed' == processed + [uid]
      ensures r.Normal? ==> UsersEncrypted(ts, dirs, files0, session0, processed', walks', poppeds', |processed'|)
      ensures r.Abrupt? ==>
        && UsersEncrypted(ts, dirs, files0, session0, processed', walks', poppeds', |processed|)
        && Stopped(view.faults, walks'[|walks'| - 1]) && r.kind == OtherError
    {
      ghost var f1, s1, before := view.files, session, Flatten(walks);
      ghost var popped: set<Path>, visited: seq<Path>;
      r, popped, visited := EncryptUsersFiles(uid, ts);
      EncryptedByAppend(view.faults, ts, files0, session0, before, f1, s1, visited, view.files, session);
      FlattenSnoc(walks, visited);
      WalkedSnoc(dirs, view.faults, processed, walks, poppeds, uid, visited, popped, r.Normal?);
      processed', walks', poppeds' := processed + [uid], walks + [visited], poppeds + [popped];
    }

    /** The users of one page, in order; the first exception propagates. */
    method EncryptPage(users: seq<string>, ts: nat, ghost dirs: Dirs, ghost files0: Files, ghost session0: set<string>,
                       ghost processed: seq<string>, ghost walks: seq<seq<Path>>, ghost poppeds: seq<set<Path>>)
      returns (r: Completion<()>, ghost processed': seq<string>, ghost walks': seq<seq<Path>>, ghost poppeds': seq<set<Path>>)
      requires UsersEncrypted(ts, dirs, files0, session0, processed, walks, poppeds, |processed|)
      modifies this`session, view`files
      ensures r.Normal? ==>
        && processed' == processed + users
        && UsersEncrypted(ts, dirs, files0, session0, processed', walks', poppeds', |processed'|)
      ensures r.Abrupt? ==>
        && |processed| < |processed'| && processed' <= processed + users
        && UsersEncrypted(ts, dirs, files0, session0, processed', walks', poppeds', |processed'| - 1)
        && Stopped(view.faults, walks'[|walks'| - 1]) && r.kind == OtherError
    {
      r, processed', walks', poppeds' := Normal(()), processed, walks, poppeds;
      for u := 0 to |users|
        invariant r.Normal? && processed' == processed + users[..u]
        invariant UsersEncrypted(ts, dirs, files0, session0, processed', walks', poppeds', |processed'|)
      {
        var res;
        res, processed', walks', poppeds' := EncryptUser(users[u], ts, dirs, files0, session0, processed', walks', poppeds');
        TakeNext(users, u);
        if res.Abrupt? {
          r := res;
          assert users[..u + 1] <= users;
          return;
        }
      }
      assert users[..|users|] == users;
    }

    /** The paging loop over one backend: pages of 500 users are requested
        at offsets 0, 500, ... until a page comes back short. */
    method EncryptBackend(backend: seq<string>, ts: nat, ghost dirs: Dirs, ghost files0: Files, ghost session0: set<string>,
                          ghost processed: seq<string>, ghost walks: seq<seq<Path>>, ghost poppeds: seq<set<Path>>)
      returns (r: Completion<()>, ghost processed': seq<string>, ghost walks': seq<seq<Path>>, ghost poppeds': seq<set<Path>>)
      requires UsersEncrypted(ts, dirs, files0, session0, processed, walks, poppeds, |processed|)
      modifies this`session, view`files
      ensures r.Normal? ==>
        && processed' == processed + backend
        && UsersEncrypted(ts, dirs, files0, session0, processed', walks', poppeds', |processed'|)
      ensures r.Abrupt? ==>
        && |processed| < |processed'| && processed' <= processed + backend
        && UsersEncrypted(ts, dirs, files0, session0, processed', walks', poppeds', |processed'| - 1)
        && Stopped(view.faults, walks'[|walks'| - 1]) && r.kind == OtherError
    {
      r, processed', walks', poppeds' := Normal(()), processed, walks, poppeds;
      var limit := PageSize;
      var offset := 0;
      var more := true;
      while more
        invariant r.Normal?
        invariant more ==> offset <= |backend| && processed' == processed + backend[..offset]
        invariant !more ==> processed' == processed + backend
        invariant UsersEncrypted(ts, dirs, files0, session0, processed', walks', poppeds', |processed'|)
        decreases |backend| + PageSize - offset
      {
        var users := GetUsers(backend, limit, offset);
        ghost var before := processed';
        r, processed', walks', poppeds' := EncryptPage(users, ts, dirs, files0, session0, processed', walks', poppeds');
        PageAdvance(processed, backend, limit, offset, before, processed', r.Normal?);
        if r.Abrupt? {
          return;
        }
        offset := offset + limit;
        more := |users| >= limit;
      }
    }

    /** encryptAllUserFilesWithMasterKey: every backend is read 500 users at a
        time, and each user of each page is encrypted as soon as the page
        arrives; the first exception other than DecryptionFailed stops
        everything and propagates. */
    method EncryptAllUserFilesWithMasterKey(ts: nat)
      returns (r: Completion<()>, ghost processed: seq<string>, ghost walks: seq<seq<Path>>, ghost poppeds: seq<set<Path>>)
      requires view.Valid()
      modifies this`session, view`files
      // all users of all backends, in backend order, each walked completely
      ensures r.Normal? ==>
        && processed == Flatten(backends)
        && UsersEncrypted(ts, view.dirs, old(view.files), old(session), processed, walks, poppeds, |processed|)
      // or a prefix of them, the last one stopped by a throwing file
      ensures r.Abrupt? ==>
        && processed != [] && processed <= Flatten(backends)
        && UsersEncrypted(ts, view.dirs, old(view.files), old(session), processed, walks, poppeds, |processed| - 1)
        && Stopped(view.faults, walks[|walks| - 1]) && r.kind == OtherError
    {
      ghost var dirs, files0, session0 := view.dirs, view.files, session;
      r, processed, walks, poppeds := Normal(()), [], [], [];
      for b := 0 to |backends|
        invariant r.Normal? && processed == Flatten(backends[..b])
        invariant UsersEncrypted(ts, dirs, files0, session0, processed, walks, poppeds, |processed|)
      {
        ghost var before := processed;
        r, processed, walks, poppeds := EncryptBackend(backends[b], ts, dirs, files0, session0, processed, walks, poppeds);
        FlattenSnoc(backends[..b], backends[b]);
        assert backends[..b + 1] == backends[..b] + [backends[b]];
        if r.Abrupt? {
          FlattenPrefix(backends, b + 1);
          return;
        }
      }
      assert backends[..|backends|] == backends;
    }

    /** encryptAllUsersFiles forwards to encryptAllUserFilesWithMasterKey. */
    method EncryptAllUsersFiles(ts: nat)
      returns (r: Completion<()>, ghost processed: seq<string>, ghost walks: seq<seq<Path>>, ghost poppeds: seq<set<Path>>)
      requires view.Valid()
      modifies this`session, view`files
      ensures r.Normal? ==>
        && processed == Flatten(backends)
        && UsersEncrypted(ts, view.dirs, old(view.files), old(session), processed, walks, poppeds, |processed|)
      ensures r.Abrupt? ==>
        && processed != [] && processed <= Flatten(backends)
        && UsersEncrypted(ts, view.dirs, old(view.files), old(session), processed, walks, poppeds, |processed| - 1)
        && Stopped(view.faults, walks[|walks| - 1]) && r.kind == OtherError
    {
      r, processed, walks, poppeds := EncryptAllUserFilesWithMasterKey(ts);
    }

    /** reencryptFiles: validating the master key is not part of this
        model; the files of every user are encrypted again. */
    method ReencryptFiles(ts: nat)
      returns (r: Completion<()>, ghost processed: seq<string>, ghost walks: seq<seq<Path>>, ghost poppeds: seq<set<Path>>)
      requires view.Valid()
      modifies this`session, view`files
      ensures r.Normal? ==>
        && processed == Flatten(backends)
        && UsersEncrypted(ts, view.dirs, old(view.files), old(session), processed, walks, poppeds, |processed|)
      ensures r.Abrupt? ==>
        && processed != [] && processed <= Flatten(backends)
        && UsersEncrypted(ts, view.dirs, old(view.files), old(session), processed, walks, poppeds, |processed| - 1)
        && Stopped(view.faults, walks[|walks| - 1]) && r.kind == OtherError
    {
      r, processed, walks, poppeds := EncryptAllUsersFiles(ts);
    }

    /** The decrypt run over the users done so far, which started from the
        ledger failed0, the journal journal0, the listings dirs0, the files
        files0 and the session session0: the ledger trail, the key-storage
        gate and the journal of DecryptProgress; each pass recorded as
        PassRecorded says; each pass began on what the pass before it left,
        and the last one left the current listings and files. */
    ghost predicate RunDecrypted(failed0: Failures, journal0: seq<Step>, dirs0: Dirs, files0: Files,
                                 session0: set<string>, ts: nat, done: seq<string>, fails: seq<seq<Path>>,
                                 ledgers: seq<Failures>, deleted: nat, passes: seq<Pass>)
      reads this, view
    {
      && view.Valid()
      && DecryptProgress(failed0, journal0, dirs0, done, fails, ledgers, deleted, failed, journal, view.dirs)
      && PassesRecorded(view.faults, done, fails, passes)
      && PassesChained(dirs0, files0, view.faults, session0, ts, done, ledgers, passes)
      && view.dirs == DirsBefore(dirs0, done, ledgers, passes, |passes|)
      && view.files == FilesBefore(files0, view.faults, session0, ts, done, ledgers, passes, |passes|)
      && session - {DecryptFlag} == session0 - {DecryptFlag}
    }

    /** The decrypt pass over one more user: the paths of uid whose rewrite
        threw are recorded, and its key storage is deleted exactly when the
        ledger is still empty afterwards. */
    method DecryptUser(uid: string, ts: nat, ghost failed0: Failures, ghost journal0: seq<Step>, ghost dirs0: Dirs,
                       ghost files0: Files, ghost session0: set<string>,
                       ghost done: seq<string>, ghost fails: seq<seq<Path>>, ghost ledgers: seq<Failures>, ghost deleted: nat,
                       ghost passes: seq<Pass>)
      returns (ghost userFails: seq<Path>, ghost deleted': nat, ghost pass: Pass)
      requires RunDecrypted(failed0, journal0, dirs0, files0, session0, ts, done, fails, ledgers, deleted, passes)
      modifies this`failed, this`session, this`appValues, this`journal, view`dirs, view`files
      // the pass walked the tree as it stood, and userFails are exactly the
      // files that were encrypted and whose rewrite threw
      ensures pass.dirs == old(view.dirs) && pass.files == old(view.files)
      ensures PassRecorded(view.faults, uid, userFails, pass)
      ensures failed == Record(old(failed), uid, userFails)
      // the pass leaves its flagged files rewritten, and its key storage
      // removed when the ledger is empty afterwards
      ensures view.dirs == DirsAfterPass(uid, pass, failed == map[])
      ensures |pass.flags| == |pass.visited| && view.files == FilesAfterPass(view.faults, old(session), ts, uid, pass, failed == map[])
      ensures deleted' == if failed == map[] then deleted + 1 else deleted
      // the run is extended by this pass
      ensures RunDecrypted(failed0, journal0, dirs0, files0, session0, ts, done + [uid], fails + [userFails],
                           ledgers + [failed], deleted', passes + [pass])
      ensures appValues == old(appValues)
    {
      ghost var failed1, journal1, dirs1 := failed, journal, view.dirs;
      ghost var dirs, files, session1 := view.dirs, view.files, session;
      ghost var popped, visited, flags := DecryptUsersFiles(uid, ts);
      userFails := OtherFailures(Select(visited, flags), view.faults);
      pass := Pass(dirs, files, popped, visited, flags);
      deleted' := DecryptProgressStep(failed0, journal0, dirs0, done, fails, ledgers, deleted, uid, userFails,
                                      failed1, journal1, dirs1, failed, journal, view.dirs);
      PassesRecordedSnoc(view.faults, done, fails, passes, uid, userFails, pass);
      PassesChainedSnoc(dirs0, files0, view.faults, session0, ts, done, ledgers, passes, uid, failed, pass);
      FilesAfterPassSession(view.faults, session1, session0, ts, uid, pass, failed == map[]);
    }

    /** decryptAllUsersFiles: collects the users of every backend page by
        page, then decrypts each user's files in that order. The key storage
        of a user is deleted exactly when the ledger is still empty after
        that user's pass, so the deletions are those of a leading run of
        users and stop at the first user whose pass leaves a failure. */
    method DecryptAllUsersFiles(ts: nat)
      returns (ghost users: seq<string>, ghost fails: seq<seq<Path>>, ghost ledgers: seq<Failures>, ghost deleted: nat,
               ghost passes: seq<Pass>)
      requires view.Valid()
      modifies this`failed, this`session, this`appValues, this`journal, view`dirs, view`files
      ensures users == Flatten(backends)
      // user i's pass recorded its failures on the ledger left by pass i-1,
      // the key storage was gated on the ledger, user i's failures are the
      // files of its pass that were encrypted and threw, and each pass began
      // on what the pass before it left
      ensures RunDecrypted(old(failed), old(journal), old(view.dirs), old(view.files), old(session), ts,
                           users, fails, ledgers, deleted, passes)
      ensures passes != [] ==> passes[0].dirs == old(view.dirs) && passes[0].files == old(view.files)
      ensures appValues == old(appValues)
    {
      var userList;
      ghost var offsets;
      userList, offsets := CollectUsers(backends);
      users := userList;
      fails, ledgers, deleted, passes := DecryptUsers(userList, ts);
      FirstPass(old(view.dirs), old(view.files), view.faults, old(session), ts, users, ledgers, passes);
    }

    /** The foreach over the collected users: each user's files are
        decrypted in list order. */
    method DecryptUsers(userList: seq<string>, ts: nat)
      returns (ghost fails: seq<seq<Path>>, ghost ledgers: seq<Failures>, ghost deleted: nat, ghost passes: seq<Pass>)
      requires view.Valid()
      modifies this`failed, this`session, this`appValues, this`journal, view`dirs, view`files
      ensures RunDecrypted(old(failed), old(journal), old(view.dirs), old(view.files), old(session), ts,
                           userList, fails, ledgers, deleted, passes)
      ensures appValues == old(appValues)
    {
      fails, ledgers, deleted, passes := [], [], 0, [];
      ghost var done: seq<string> := [];
      for u := 0 to |userList|
        invariant done == userList[..u]
        invariant RunDecrypted(old(failed), old(journal), old(view.dirs), old(view.files), old(session), ts,
                               done, fails, ledgers, deleted, passes)
        invariant appValues == old(appValues)
      {
        ghost var userFails, pass;
        userFails, deleted, pass := DecryptUser(userList[u], ts, old(failed), old(journal), old(view.dirs), old(view.files),
                                                old(session), done, fails, ledgers, deleted, passes);
        TakeNext(userList, u);
        done, fails, ledgers, passes := done + [userList[u]], fails + [userFails], ledgers + [failed], passes + [pass];
      }
      assert done == userList;
    }

    /** The switch to master-key mode: the legacy app and its key storage
        are removed and the encryption app is enabled with the master key,
        one committed step after the other. */
    method Reconfigure()
      requires view.Valid()
      modifies this`appValues, this`journal, view`dirs, view`files
      ensures view.Valid()
      ensures appValues == Reconfigured(old(appValues))
      ensures journal == old(journal) + ReconfigurationSteps
      ensures view.dirs == StorageReplay(old(view.dirs), ReconfigurationSteps)
      ensures view.files == StorageReplay(old(view.files), ReconfigurationSteps)
    {
      ghost var steps: seq<Step> := [];
      for i := 0 to |ReconfigurationSteps|
        invariant view.Valid()
        invariant steps == ReconfigurationSteps[..i]
        invariant journal == old(journal) + steps
        invariant view.dirs == StorageReplay(old(view.dirs), steps)
        invariant view.files == StorageReplay(old(view.files), steps)
        invariant appValues == AppValuesReplay(old(appValues), steps)
      {
        Commit(ReconfigurationSteps[i]);
        StorageReplaySnoc(old(view.dirs), steps, ReconfigurationSteps[i]);
        StorageReplaySnoc(old(view.files), steps, ReconfigurationSteps[i]);
        AppValuesReplaySnoc(old(appValues), steps, ReconfigurationSteps[i]);
        assert ReconfigurationSteps[..i + 1] == steps + [ReconfigurationSteps[i]];
        steps := steps + [ReconfigurationSteps[i]];
      }
      assert steps == ReconfigurationSteps;
      ReplayReconfigures(old(appValues));
    }

    /** createNewMasterKey: decrypts the files of every user and, only if no
        file failed to decrypt, switches to master-key mode. */
    method CreateNewMasterKey(ts: nat)
      returns (ghost users: seq<string>, ghost fails: seq<seq<Path>>, ghost ledgers: seq<Failures>, ghost deleted: nat,
               ghost passes: seq<Pass>)
      requires view.Valid()
      modifies this`failed, this`session, this`appValues, this`journal, view`dirs, view`files
      ensures users == Flatten(backends)
      // user i's pass recorded fails[i], leaving the ledger ledgers[i]
      ensures LedgerTrail(old(failed), users, fails, ledgers) && failed == LedgerBefore(old(failed), ledgers, |ledgers|)
      ensures Extends(old(failed), failed)
      // user i's failures are the files of its pass that were encrypted and threw
      ensures PassesRecorded(view.faults, users, fails, passes)
      ensures passes != [] ==> passes[0].dirs == old(view.dirs) && passes[0].files == old(view.files)
      // so the switch happens exactly when the ledger started empty and no
      // file that was encrypted threw past DecryptionFailed
      ensures appValues == Reconfigured(old(appValues)) && failed == map[] <==>
        && old(failed) == map[]
        && forall i, k :: 0 <= i < |passes| && 0 <= k < |passes[i].visited| && ListedEncrypted(passes[i].files, passes[i].visited[k]) ==>
             !Throws(view.faults, passes[i].visited[k])
      // user i's key storage was deleted exactly when the ledger was empty after its pass
      ensures Gated(ledgers, deleted)
      ensures failed == map[] ==>
        && deleted == |users|
        && journal == old(journal) + KeyStorageDeletions(users) + ReconfigurationSteps
        && appValues == Reconfigured(old(appValues))
      ensures failed != map[] ==>
        && journal == old(journal) + KeyStorageDeletions(users[..deleted])
        && appValues == old(appValues)
      // the listings went through exactly the committed storage steps
      ensures |old(journal)| <= |journal| && view.dirs == StorageReplay(old(view.dirs), journal[|old(journal)|..])
      // each pass began on what the pass before it left; the files are those
      // the last pass left, then put through the reconfiguration if it ran
      ensures PassesChained(old(view.dirs), old(view.files), view.faults, old(session), ts, users, ledgers, passes)
      ensures failed == map[] ==>
        view.files == StorageReplay(FilesBefore(old(view.files), view.faults, old(session), ts, users, ledgers, passes, |passes|),
                                    ReconfigurationSteps)
      ensures failed != map[] ==>
        view.files == FilesBefore(old(view.files), view.faults, old(session), ts, users, ledgers, passes, |passes|)
    {
      users, fails, ledgers, deleted, passes := DecryptAllUsersFiles(ts);
      CleanRun(view.faults, old(failed), users, fails, ledgers, passes);
      ghost var deletions := KeyStorageDeletions(users[..deleted]);
      if failed == map[] {
        assert users[..deleted] == users;
        Reconfigure();
        ReplayCommitted(old(journal), old(view.dirs), deletions, ReconfigurationSteps, view.dirs);
      } else {
        ReplayCommitted(old(journal), old(view.dirs), deletions, [], view.dirs);
        assert journal == old(journal) + deletions + [];
      }
    }
  }
}
