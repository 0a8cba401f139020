/** Application configuration as key/value pairs per app, and the
    irreversible steps the controller commits. */
module Config {
  import opened Paths

  type AppKey = (string, string)
  type AppValues = map<AppKey, string>

  /** An irreversible step, as recorded in the controller's journal. */
  datatype Step =
    | DeleteApp(app: string)
    | DeleteAll(path: Path)
    | DeleteAppValue(app: string, key: string)
    | DeleteAppValues(app: string)
    | EnableApp(app: string)
    | SetValue(app: string, key: string, value: string)
    | DeleteKeyStorage(uid: string)

  /** The per-user key storage a decrypt pass removes. */
  function KeyStorage(uid: string): Path
  {
    uid + "/files_encryption"
  }

  /** The effect of one step on the storage view (directories or files). */
  function StorageAfter<V>(m: map<Path, V>, step: Step): map<Path, V>
  {
    match step
    case DeleteAll(path) => DropUnder(m, Normalize(path))
    case DeleteKeyStorage(uid) => DropUnder(m, Normalize(KeyStorage(uid)))
    case _ => m
  }

  /** The effect of a sequence of steps on the storage view, in order. */
  function StorageReplay<V>(m: map<Path, V>, steps: seq<Step>): map<Path, V>
  {
    if steps == [] then m else StorageAfter(StorageReplay(m, steps[..|steps| - 1]), steps[|steps| - 1])
  }

  lemma StorageReplaySnoc<V>(m: map<Path, V>, steps: seq<Step>, step: Step)
    ensures StorageReplay(m, steps + [step]) == StorageAfter(StorageReplay(m, steps), step)
  {
    assert (steps + [step])[..|steps|] == steps;
  }

  /** Replaying a and then b is replaying a + b. */
  lemma {:induction false} StorageReplayAppend<V>(m: map<Path, V>, a: seq<Step>, b: seq<Step>)
    ensures StorageReplay(m, a + b) == StorageReplay(StorageReplay(m, a), b)
    decreases |b|
  {
    if b == [] {
      assert a + b == a;
    } else {
      var n := |b| - 1;
      StorageReplayAppend(m, a, b[..n]);
      assert (a + b)[..|a + b| - 1] == a + b[..n];
    }
  }

  /** One key-storage deletion per user, in order. */
  function KeyStorageDeletions(uids: seq<string>): (steps: seq<Step>)
    ensures |steps| == |uids|
    ensures forall i :: 0 <= i < |uids| ==> steps[i] == DeleteKeyStorage(uids[i])
  {
    seq(|uids|, i requires 0 <= i < |uids| => DeleteKeyStorage(uids[i]))
  }

  lemma KeyStorageDeletionsSnoc(uids: seq<string>, uid: string)
    ensures KeyStorageDeletions(uids + [uid]) == KeyStorageDeletions(uids) + [DeleteKeyStorage(uid)]
  {
    var l, r := KeyStorageDeletions(uids + [uid]), KeyStorageDeletions(uids) + [DeleteKeyStorage(uid)];
    assert |l| == |r|;
    assert forall k :: 0 <= k < |l| ==> l[k] == r[k];
  }

  /** One more key-storage deletion after those of all the users so far. */
  lemma DeletionSnoc<V>(journal0: seq<Step>, dirs0: map<Path, V>, done: seq<string>, uid: string, journal1: seq<Step>, dirs1: map<Path, V>)
    requires journal1 == journal0 + KeyStorageDeletions(done)
    requires dirs1 == StorageReplay(dirs0, KeyStorageDeletions(done))
    ensures var done' := done + [uid];
      && journal1 + [DeleteKeyStorage(uid)] == journal0 + KeyStorageDeletions(done'[..|done'|])
      && StorageAfter(dirs1, DeleteKeyStorage(uid)) == StorageReplay(dirs0, KeyStorageDeletions(done'[..|done'|]))
  {
    var done' := done + [uid];
    assert done'[..|done'|] == done';
    KeyStorageDeletionsSnoc(done, uid);
    StorageReplaySnoc(dirs0, KeyStorageDeletions(done), DeleteKeyStorage(uid));
  }

  /** The journal and the listings after steps a and then b were committed
      from journal0 and dirs0: the listings went through exactly the
      committed steps. */
  lemma ReplayCommitted<V>(journal0: seq<Step>, dirs0: map<Path, V>, a: seq<Step>, b: seq<Step>, dirs: map<Path, V>)
    requires dirs == StorageReplay(StorageReplay(dirs0, a), b)
    ensures (journal0 + a + b)[|journal0|..] == a + b
    ensures dirs == StorageReplay(dirs0, (journal0 + a + b)[|journal0|..])
  {
    var tail := (journal0 + a + b)[|journal0|..];
    assert |tail| == |a + b|;
    assert forall k :: 0 <= k < |tail| ==> tail[k] == (a + b)[k];
    StorageReplayAppend(dirs0, a, b);
  }

  /** The values of every app except app. */
  function WithoutApp(values: AppValues, app: string): (r: AppValues)
    ensures forall k :: k in r <==> k in values && k.0 != app
    ensures forall k :: k in r ==> r[k] == values[k]
  {
    map k | k in values && k.0 != app :: values[k]
  }

  /** The effect of one step on the configuration values; storage
      deletions leave them alone. */
  function Apply(values: AppValues, step: Step): AppValues
  {
    match step
    case DeleteApp(app) => WithoutApp(values, app)
    case DeleteAppValues(app) => WithoutApp(values, app)
    case DeleteAppValue(app, key) => values - {(app, key)}
    case EnableApp(app) => values[(app, "enabled") := "yes"]
    case SetValue(app, key, value) => values[(app, key) := value]
    case DeleteAll(_) => values
    case DeleteKeyStorage(_) => values
  }

  /** The switch to master-key mode, in the order it is committed. */
  const ReconfigurationSteps: seq<Step> := [
    DeleteApp("encryption"),
    DeleteAll("files_encryption"),
    DeleteAppValue("files_encryption", "installed_version"),
    DeleteAppValues("encryption"),
    EnableApp("encryption"),
    SetValue("encryption", "useMasterKey", "1")
  ]

  const MasterKeyFlag: AppKey := ("encryption", "useMasterKey")
  const EnabledFlag: AppKey := ("encryption", "enabled")
  const InstalledVersion: AppKey := ("files_encryption", "installed_version")

  /** The configuration after the reconfiguration steps: the encryption app
      keeps only its enabled flag and the master-key flag, the legacy
      install marker is gone, every other app is untouched. */
  function Reconfigured(values: AppValues): (r: AppValues)
    ensures MasterKeyFlag in r && r[MasterKeyFlag] == "1"
    ensures EnabledFlag in r && r[EnabledFlag] == "yes"
    ensures forall k :: k in r && k.0 == "encryption" ==> k == MasterKeyFlag || k == EnabledFlag
    ensures InstalledVersion !in r
    ensures forall k: AppKey :: k.0 != "encryption" && k != InstalledVersion ==>
      (k in r <==> k in values) && (k in values ==> r[k] == values[k])
  {
    var v0 := Apply(values, ReconfigurationSteps[0]);
    var v1 := Apply(v0, ReconfigurationSteps[1]);
    var v2 := Apply(v1, ReconfigurationSteps[2]);
    var v3 := Apply(v2, ReconfigurationSteps[3]);
    var v4 := Apply(v3, ReconfigurationSteps[4]);
    Apply(v4, ReconfigurationSteps[5])
  }

  /** The effect of a sequence of steps on the configuration values, in order. */
  function AppValuesReplay(values: AppValues, steps: seq<Step>): AppValues
  {
    if steps == [] then values else Apply(AppValuesReplay(values, steps[..|steps| - 1]), steps[|steps| - 1])
  }

  lemma AppValuesReplaySnoc(values: AppValues, steps: seq<Step>, step: Step)
    ensures AppValuesReplay(values, steps + [step]) == Apply(AppValuesReplay(values, steps), step)
  {
    assert (steps + [step])[..|steps|] == steps;
  }

  /** Replaying the reconfiguration steps one by one is Reconfigured. */
  lemma ReplayReconfigures(values: AppValues)
    ensures AppValuesReplay(values, ReconfigurationSteps) == Reconfigured(values)
  {
    var s := ReconfigurationSteps;
    AppValuesReplaySnoc(values, [], s[0]);
    AppValuesReplaySnoc(values, [s[0]], s[1]);
    assert [s[0]] + [s[1]] == [s[0], s[1]];
    AppValuesReplaySnoc(values, [s[0], s[1]], s[2]);
    assert [s[0], s[1]] + [s[2]] == [s[0], s[1], s[2]];
    AppValuesReplaySnoc(values, [s[0], s[1], s[2]], s[3]);
    assert [s[0], s[1], s[2]] + [s[3]] == [s[0], s[1], s[2], s[3]];
    AppValuesReplaySnoc(values, [s[0], s[1], s[2], s[3]], s[4]);
    assert [s[0], s[1], s[2], s[3]] + [s[4]] == [s[0], s[1], s[2], s[3], s[4]];
    AppValuesReplaySnoc(values, [s[0], s[1], s[2], s[3], s[4]], s[5]);
    assert [s[0], s[1], s[2], s[3], s[4]] + [s[5]] == s;
  }
}
