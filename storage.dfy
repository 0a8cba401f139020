/** The storage view the controller works on: a directory structure whose
    listings say which entries are mounted from shared storage, file
    contents, and the copy/rename/unlink/deleteAll operations of the view.
    The cipher itself is abstract: a file's content carries a count of
    encryption layers around its plaintext. */
module Storage {
  import opened Basics
  import opened Strings
  import opened Paths

  /** One entry of a directory listing; shared is set when the entry is
      mounted from another user's shared storage. */
  datatype Item = Item(name: string, shared: bool)

  /** File content: the plaintext and the number of encryption layers over it. */
  datatype Blob = Blob(layers: nat, data: seq<int>)

  predicate IsEncrypted(b: Blob)
  {
    b.layers > 0
  }

  /** What getDirectoryContent reports for one entry. */
  datatype FileInfo = FileInfo(name: string, shared: bool, encrypted: bool)

  datatype FaultKind = DecryptionFailed | OtherError

  /** How the transform layer fails when a path is copied; partial copies
      leave a truncated target behind before throwing. */
  datatype Fault = Fault(kind: FaultKind, partial: bool)

  /** Normal completion with a value, or an exception that propagates. */
  datatype Completion<T> = Normal(value: T) | Abrupt(kind: FaultKind)

  datatype CopyOutcome = Copied | NotCopied | Raised(kind: FaultKind)

  type Dirs = map<Path, seq<Item>>
  type Files = map<Path, Blob>

  /** Session flags that put the transform layer into bulk mode. */
  const DecryptFlag: string := "decryptAllCmd"
  const EncryptFlag: string := "encryptAllCmd"

  /** Listings hold valid, pairwise distinct names. */
  ghost predicate WellFormed(dirs: Dirs)
  {
    && (forall d, i :: d in dirs && 0 <= i < |dirs[d]| ==> ValidName(dirs[d][i].name))
    && (forall d, i, j :: d in dirs && 0 <= i < j < |dirs[d]| ==> dirs[d][i].name != dirs[d][j].name)
  }

  /** The listing of p; a path that is not a directory lists nothing. */
  function Items(dirs: Dirs, p: Path): seq<Item>
  {
    if p in dirs then dirs[p] else []
  }

  function InfoOf(dirs: Dirs, files: Files, root: Path, it: Item): FileInfo
  {
    var p := Child(root, it.name);
    FileInfo(it.name, it.shared, p in files && IsEncrypted(files[p]))
  }

  /** Content copied while a bulk flag is set passes through the transform
      layer: decryption takes one layer off, encryption puts one on. The
      plaintext is never changed. */
  function Transform(b: Blob, session: set<string>): (r: Blob)
    ensures r.data == b.data
    ensures DecryptFlag in session && IsEncrypted(b) ==> r.layers + 1 == b.layers
    ensures DecryptFlag in session && !IsEncrypted(b) ==> r == b
    ensures DecryptFlag !in session && EncryptFlag in session ==> r.layers == b.layers + 1
    ensures DecryptFlag !in session && EncryptFlag !in session ==> r == b
  {
    if DecryptFlag in session then Blob(if b.layers > 0 then b.layers - 1 else 0, b.data)
    else if EncryptFlag in session then Blob(b.layers + 1, b.data)
    else b
  }

  /** What a truncated copy leaves at its target. */
  const Truncated: Blob := Blob(0, [])

  /** The view's copy: a configured fault throws (after writing a truncated
      target when partial); a missing source copies nothing. */
  function CopyFiles(files: Files, faults: map<Path, Fault>, session: set<string>, src: Path, dst: Path): (CopyOutcome, Files)
  {
    if src in faults then
      (Raised(faults[src].kind), if faults[src].partial then files[dst := Truncated] else files)
    else if src in files then
      (Copied, files[dst := Transform(files[src], session)])
    else
      (NotCopied, files)
  }

  /** The view's rename: moves src over dst; a missing src changes nothing. */
  function RenameFiles(files: Files, src: Path, dst: Path): Files
  {
    if src in files then (files - {src})[dst := files[src]] else files
  }

  datatype Rewritten = Rewritten(files: Files, result: Completion<bool>)

  /** The temporary name of a rewrite: path.<tag>.<timestamp>. */
  function Target(path: Path, tag: string, ts: nat): (t: Path)
    ensures |t| > |path| && t[..|path|] == path
  {
    path + "." + tag + "." + DecimalString(ts)
  }

  /** The copy-then-rename rewrite of src through the temporary path dst:
      a DecryptionFailed copy removes the temporary and returns false; any
      other exception propagates and leaves the files as the copy left
      them; otherwise the copy is renamed over the source. */
  function Rewrite(files: Files, faults: map<Path, Fault>, session: set<string>, src: Path, dst: Path): (r: Rewritten)
    requires src != dst
    // success: the transformed content is at the source, the temporary is gone
    ensures src in files && src !in faults ==>
      && r.result == Normal(true)
      && src in r.files && r.files[src] == Transform(files[src], session)
      && dst !in r.files
    // decryption failure: source untouched, temporary gone, false returned
    ensures src in faults && faults[src].kind == DecryptionFailed ==>
      && r.result == Normal(false)
      && dst !in r.files
      && (src in r.files <==> src in files) && (src in files ==> r.files[src] == files[src])
    // any other exception propagates; the source is untouched
    ensures src in faults && faults[src].kind == OtherError ==>
      && r.result == Abrupt(OtherError)
      && (src in r.files <==> src in files) && (src in files ==> r.files[src] == files[src])
      && (faults[src].partial ==> dst in r.files)
      && (!faults[src].partial ==> r.files == files)
    // exactly the configured non-decryption faults propagate
    ensures r.result.Abrupt? <==> src in faults && faults[src].kind == OtherError
  {
    var (c, copied) := CopyFiles(files, faults, session, src, dst);
    match c
    case Raised(DecryptionFailed) => Rewritten(copied - {dst}, Normal(false))
    case Raised(OtherError) => Rewritten(copied, Abrupt(OtherError))
    case _ => Rewritten(RenameFiles(copied, dst, src), Normal(true))
  }

  /** Only the source and the temporary of a rewrite can change. */
  lemma RewriteFrame(files: Files, faults: map<Path, Fault>, session: set<string>, src: Path, dst: Path, p: Path)
    requires src != dst && p != src && p != dst
    ensures var r := Rewrite(files, faults, session, src, dst);
      (p in r.files <==> p in files) && (p in files ==> r.files[p] == files[p])
  {
  }

  /** Whenever the rewrite of an existing file returns, exactly one of
      source and temporary exists. */
  lemma RewriteLeavesOneCopy(files: Files, faults: map<Path, Fault>, session: set<string>, src: Path, dst: Path)
    requires src != dst && src in files
    requires Rewrite(files, faults, session, src, dst).result.Normal?
    ensures var r := Rewrite(files, faults, session, src, dst);
      src in r.files && dst !in r.files
  {
  }

  /** The rewrite does not clean up after an exception other than
      DecryptionFailed: a partial copy leaves both paths behind. */
  lemma RewriteLeavesTemporaryOnOtherError(files: Files, session: set<string>, src: Path, dst: Path)
    requires src != dst && src in files
    ensures var r := Rewrite(files, map[src := Fault(OtherError, true)], session, src, dst);
      src in r.files && dst in r.files && r.result.Abrupt?
  {
  }

  /** The storage view. */
  class View {
    var dirs: Dirs
    var files: Files
    /** The transform layer's failures, fixed for one run. */
    const faults: map<Path, Fault>

    ghost predicate Valid()
      reads this
    {
      WellFormed(dirs)
    }

    constructor (dirs: Dirs, files: Files, faults: map<Path, Fault>)
      requires WellFormed(dirs)
      ensures Valid()
      ensures this.dirs == dirs && this.files == files && this.faults == faults
    {
      this.dirs := dirs;
      this.files := files;
      this.faults := faults;
    }

    function IsDir(p: Path): bool
      reads this
    {
      p in dirs
    }

    function FileExists(p: Path): bool
      reads this
    {
      p in files || p in dirs
    }

    /** getDirectoryContent: one FileInfo per listed entry, in listing order. */
    function DirectoryContent(root: Path): (content: seq<FileInfo>)
      reads this
      ensures |content| == |Items(dirs, root)|
      ensures forall i :: 0 <= i < |content| ==> content[i] == InfoOf(dirs, files, root, Items(dirs, root)[i])
    {
      var d, f := dirs, files;
      var items := Items(d, root);
      seq(|items|, i requires 0 <= i < |items| => InfoOf(d, f, root, items[i]))
    }

    method Copy(src: Path, dst: Path, session: set<string>) returns (r: CopyOutcome)
      modifies this`files
      ensures (r, files) == CopyFiles(old(files), faults, session, src, dst)
    {
      var (c, f) := CopyFiles(files, faults, session, src, dst);
      r, files := c, f;
    }

    method Rename(src: Path, dst: Path)
      modifies this`files
      ensures files == RenameFiles(old(files), src, dst)
    {
      files := RenameFiles(files, src, dst);
    }

    method Unlink(p: Path)
      modifies this`files
      ensures files == old(files) - {p}
    {
      files := files - {p};
    }

    /** Removes p and everything below it. */
    method DeleteAll(p: Path)
      requires Valid()
      modifies this`dirs, this`files
      ensures Valid()
      ensures dirs == DropUnder(old(dirs), Normalize(p))
      ensures files == DropUnder(old(files), Normalize(p))
    {
      dirs := DropUnder(dirs, Normalize(p));
      files := DropUnder(files, Normalize(p));
    }
  }
}
