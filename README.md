# Master-key migration controller, modelled in Dafny

This project models the controller that moves an ownCloud installation from per-user encryption keys to a single master key. It also models the pure parts of the system-tag test helpers.

The controller runs in two steps, each over every user of every user backend.

**Decrypt step (`createNewMasterKey`).**
- Walks each user's tree from `/<uid>/files` with an explicit stack.
- Skips entries mounted from shared storage.
- Rewrites every file listed as encrypted. The rewrite copies the file to `path.decrypted.<timestamp>`, with the `decryptAllCmd` session flag set, and renames the copy back over the file.
- Records the paths whose rewrite threw in a per-user failure ledger.
- Deletes a user's key storage `<uid>/files_encryption` while the ledger is empty.
- When the ledger is empty at the end, commits six configuration steps in order:
  1. delete the encryption app's configuration;
  2. delete the `files_encryption` directory;
  3. delete the legacy `installed_version` marker;
  4. delete the encryption app's values;
  5. enable the encryption app;
  6. set `useMasterKey` to `1`.

**Re-encrypt step (`reencryptFiles`).**
- Walks every user's tree the same way, without the shared-storage skip.
- Rewrites every file through `path.encrypted.<timestamp>` under the `encryptAllCmd` flag, which stays set.
- Reads users page by page, 500 at a time, and stops at the first exception that is not a decryption failure.

**Modelling choices.**
- The storage view is a class. Its fields are:
  - `dirs`: directory listings, whose entries say whether they are mounted from shared storage;
  - `files`: file contents, each a plaintext under a count of encryption layers;
  - `faults`: the transform layer's failures, fixed for one run.
- The controller is a class. It holds the ledger, the session flags, the configuration values and a ghost journal of the irreversible steps it committed, in order.
- Every walk, every rewrite sequence and every paging loop is an imperative method proved against a function of the starting state:
  - `RewriteAll` folds the rewrites of the visited files in order;
  - `Complete` states that the walk handled every reachable entry exactly once;
  - `StorageReplay` and `Reconfigured` give the committed steps' effect on storage and configuration;
  - `Flatten` lists the users of all backends in order.
- Lemmas about these functions give the per-file outcome (`DecryptWalkEffect`, `RewriteAllEffect`).
- The decrypt passes keep a trail of the ledger after each user (`LedgerTrail`). The gate on key-storage deletion (`Gated`) states, for each user, that its key storage was deleted exactly when the ledger was empty after its pass.

**Behaviour of the code that the model keeps.**
- Key storage is deleted only while the whole ledger is empty, not per user. Once any user has a failure, no later user's key storage is deleted, even a user without failures.
- In the decrypt walk, an exception other than a decryption failure is caught and recorded against the path; the walk goes on.
- In the encrypt walk, nothing is caught: such an exception ends the whole re-encrypt step.
- After such an exception, a partial copy's temporary file stays behind (`RewriteLeavesTemporaryOnOtherError`): the rewrite removes its temporary only after a DecryptionFailed.

In the tag helpers, `lastTagId` is `substr($url, strrpos($url, '/') + 1)`. For a URL without any `/`, `strrpos` yields false, which counts as 0, so the result is the URL without its first character. The model keeps this.

## Model

| member | source | states |
|---|---|---|
| MasterKey.MasterKeyController.CreateNewMasterKey | apps/encryption/lib/Controller/MasterKeyController.php:78-98 | decrypts every user of every backend in order, the first pass on the starting listings and files and every later pass on exactly what the pass before it left; each user's recorded failures are exactly the files that were encrypted when its pass began and whose rewrite threw past DecryptionFailed; user i's pass records them on the ledger left by user i-1, and user i's key storage was deleted exactly when the ledger was empty after that pass; the configuration becomes `Reconfigured` with an empty ledger exactly when the ledger started empty and no such file threw, the journal then holding every user's key-storage deletion followed by the six reconfiguration steps; otherwise the configuration is unchanged and only the deletions were committed; the listings went through exactly the committed steps; the files are those the last pass left, put through the reconfiguration steps when it ran |
| MasterKey.MasterKeyController.Reconfigure | apps/encryption/lib/Controller/MasterKeyController.php:83-96 | commits the six steps in source order: the journal grows by exactly them, the configuration becomes `Reconfigured`, and the listings and the files are both replayed through them |
| Config.Reconfigured | apps/encryption/lib/Controller/MasterKeyController.php:85-95 | after the steps the encryption app holds only its enabled flag and `useMasterKey = 1`, the `installed_version` marker is gone, every other key is unchanged |
| Config.ReplayReconfigures | apps/encryption/lib/Controller/MasterKeyController.php:85-95 | applying the steps one at a time in journal order gives `Reconfigured` |
| Config.StorageReplayAppend | apps/encryption/lib/Controller/MasterKeyController.php:78-98 | replaying the committed steps a and then b is replaying a + b |
| MasterKey.KeyStorageOutsideFiles | apps/encryption/lib/Controller/MasterKeyController.php:227-229 | no path lies both under a user's key storage `/<u>/files_encryption` and under any user's files tree `/<v>/files`, for non-empty '/'-free ids |
| MasterKey.KeyStorageDeletionsSpareFiles | apps/encryption/lib/Controller/MasterKeyController.php:227-229 | deleting the key storage of any users, in any order, leaves every path under any user's files tree present or absent as before and with the same content |
| Config.StorageReplaySnoc | apps/encryption/lib/Controller/MasterKeyController.php:227-229 | replaying one more committed step applies it after the earlier ones |
| MasterKey.MasterKeyController.Commit | apps/encryption/lib/Controller/MasterKeyController.php:86-95 | a committed step is appended to the journal, applied to the configuration, and applied to the storage view (a directory deletion drops everything under the normalised path) |
| MasterKey.MasterKeyController.ReencryptFiles | apps/encryption/lib/Controller/MasterKeyController.php:100-104 | same outcome as encrypting all users' files |
| MasterKey.MasterKeyController.EncryptAllUsersFiles | apps/encryption/lib/Controller/MasterKeyController.php:106-108 | same outcome as `EncryptAllUserFilesWithMasterKey` |
| MasterKey.MasterKeyController.EncryptAllUserFilesWithMasterKey | apps/encryption/lib/Controller/MasterKeyController.php:110-126 | on normal completion every user of every backend was walked completely in backend order, none of their files threw, and the files are the rewrite fold over all their walks; after an exception the users handled are a non-empty prefix of all users, all but the last walked completely, and the last walk stopped at its first throwing file |
| MasterKey.MasterKeyController.EncryptBackend | apps/encryption/lib/Controller/MasterKeyController.php:113-124 | pages through one backend until a page comes back short: all of its users are handled in order, or a prefix of them up to the first exception |
| Pagination.PageAdvance | apps/encryption/lib/Controller/MasterKeyController.php:115-124 | after one more page the users handled reach the next offset (full page) or the backend's end (short page), and stay a prefix of the backend when a user's pass threw |
| Pagination.PageStep | apps/encryption/lib/Controller/MasterKeyController.php:116 | a page continues the earlier pages: a full page up to offset+limit, a short one to the end |
| Pagination.GetUsers | apps/encryption/lib/Controller/MasterKeyController.php:116 | a page holds at most limit users, read from the offset on, and all the rest when shorter than limit |
| Pagination.FlattenPrefix | apps/encryption/lib/Controller/MasterKeyController.php:112 | the users of the first backends come first among all users |
| MasterKey.MasterKeyController.EncryptPage | apps/encryption/lib/Controller/MasterKeyController.php:117-122 | the users of one page are encrypted in order; the first exception stops the page |
| MasterKey.MasterKeyController.EncryptUser | apps/encryption/lib/Controller/MasterKeyController.php:120 | one more user's walk is appended to the per-user record, complete and throw-free when it returned normally, stopped at its throwing file otherwise |
| MasterKey.EncryptedByAppend | apps/encryption/lib/Controller/MasterKeyController.php:117-122 | encrypting one user's files after another's is the rewrite fold over both walks in order |
| MasterKey.WalkedSnoc | apps/encryption/lib/Controller/MasterKeyController.php:117-122 | one more user whose walk reached only its own tree, no file twice, is appended to the per-user record, and counted as done exactly when its walk completed without a throwing file |
| MasterKey.MasterKeyController.EncryptUsersFiles | apps/encryption/lib/Controller/MasterKeyController.php:128-147 | on normal return the walk from `/<uid>/files` handled every reachable entry once and every visited file was encrypted in visiting order without a throw; after an exception the walk ends at the first file whose rewrite threw, that exception kind is not DecryptionFailed, the files reflect the rewrites up to it, and the visited files are distinct and reachable from `/<uid>/files` |
| MasterKey.MasterKeyController.EncryptListing | apps/encryption/lib/Controller/MasterKeyController.php:135-145 | the entries of one listing are handled in order, keeping the walk invariant, until a rewrite throws; the files visited then are distinct and reachable |
| MasterKey.MasterKeyController.EncryptEntry | apps/encryption/lib/Controller/MasterKeyController.php:136-145 | a directory entry is pushed; any other entry is visited and encrypted, shared or not; an exception comes only from a file entry, which is the last one visited |
| MasterKey.MasterKeyController.EncryptLeaf | apps/encryption/lib/Controller/MasterKeyController.php:141-144 | the file is encrypted; the walk goes on exactly when the rewrite did not throw past DecryptionFailed |
| MasterKey.MasterKeyController.EncryptNext | apps/encryption/lib/Controller/MasterKeyController.php:142 | the files and session account for one more encrypt rewrite; an exception propagates exactly when the file's fault is not a decryption failure |
| MasterKey.MasterKeyController.EncryptFile | apps/encryption/lib/Controller/MasterKeyController.php:149-166 | the files are the copy-then-rename rewrite through `path.encrypted.<ts>` under `encryptAllCmd`, and the flag stays set |
| Storage.Rewrite | apps/encryption/lib/Controller/MasterKeyController.php:149-166 | success: transformed content at the source and no temporary; DecryptionFailed: source untouched, temporary removed, false; any other exception propagates with the source untouched |
| Storage.RewriteFrame | apps/encryption/lib/Controller/MasterKeyController.php:149-166 | a rewrite changes no path other than its source and its temporary |
| Storage.RewriteLeavesOneCopy | apps/encryption/lib/Controller/MasterKeyController.php:232-250 | whenever the rewrite of an existing file returns, the source exists and the temporary does not |
| Storage.RewriteLeavesTemporaryOnOtherError | apps/encryption/lib/Controller/MasterKeyController.php:153-163 | an exception other than DecryptionFailed after a partial copy leaves both source and temporary |
| Storage.Target | apps/encryption/lib/Controller/MasterKeyController.php:151 | the temporary name is longer than the source path and starts with it |
| Storage.Transform | apps/encryption/lib/Controller/MasterKeyController.php:154-155 | copying under decryptAllCmd takes exactly one layer off an encrypted file and leaves a plaintext file as it is, under encryptAllCmd alone adds one, and never changes the plaintext |
| Rewrites.TargetInjective | apps/encryption/lib/Controller/MasterKeyController.php:151 | distinct paths have distinct temporaries |
| Rewrites.RewriteAllOutside | apps/encryption/lib/Controller/MasterKeyController.php:149-166 | a path that is neither rewritten nor a temporary keeps its presence and content through a rewrite sequence |
| Rewrites.RewriteAllEffect | apps/encryption/lib/Controller/MasterKeyController.php:232-250 | in a sequence with no repeated path and no path equal to another's temporary, each rewritten file ends transformed (or untouched after DecryptionFailed) with its temporary gone |
| Rewrites.RewriteAllAppend | apps/encryption/lib/Controller/MasterKeyController.php:134-146 | rewriting a then b is rewriting a + b |
| MasterKey.MasterKeyController.DecryptAllUsersFiles | apps/encryption/lib/Controller/MasterKeyController.php:168-190 | users are collected from all backends first and decrypted in that order; the first pass began on the starting listings and files, and every later pass on exactly the listings and files the pass before it left; user i's pass walked its whole tree skipping shared entries, and its failures are exactly the files that were encrypted when the pass began and whose rewrite threw past DecryptionFailed; they are recorded on the ledger left by user i-1; user i's key storage was deleted exactly when the ledger was empty after that pass, and a user whose storage was not deleted leaves the ledger non-empty; the journal grows by those deletions in user order; the listings and files are those the last pass left; configuration untouched |
| MasterKey.MasterKeyController.DecryptUsers | apps/encryption/lib/Controller/MasterKeyController.php:183-189 | the foreach over the collected users, in list order, keeps the whole run's record: ledger trail, gate, journal, each pass recorded and chained to the one before it |
| Pagination.CollectUsers | apps/encryption/lib/Controller/MasterKeyController.php:171-181 | the user list is every backend's users, backend by backend, each read at offsets 0, 500, ... through the first short page |
| Pagination.PageThrough | apps/encryption/lib/Controller/MasterKeyController.php:172-180 | paging one backend returns all of its users in order |
| MasterKey.MasterKeyController.DecryptUser | apps/encryption/lib/Controller/MasterKeyController.php:185-189 | the pass walks the user's whole tree as it stood, skipping shared entries, and its failures are exactly the files that were encrypted and whose rewrite threw past DecryptionFailed; the ledger becomes the old one with them recorded; the count of deleting users grows by one exactly when the ledger is empty afterwards; the pass leaves the flagged files rewritten in visiting order and its key storage removed exactly when the ledger is empty; the run's ledger trail, gate, journal, pass record and pass chain are extended by this user; configuration untouched |
| MasterKey.PassesRecordedSnoc | apps/encryption/lib/Controller/MasterKeyController.php:185-189 | one more user's recorded pass extends the record of all passes so far |
| MasterKey.PassesChainedSnoc | apps/encryption/lib/Controller/MasterKeyController.php:185-189 | a pass that began on what the run left extends the chain, and the run then leaves what that pass leaves: its flagged files rewritten and, with an empty ledger, its key storage removed |
| MasterKey.LaterPass | apps/encryption/lib/Controller/MasterKeyController.php:185-189 | in a chained run, every pass after the first began on exactly the listings and files the previous pass left |
| MasterKey.FirstPass | apps/encryption/lib/Controller/MasterKeyController.php:185-189 | in a chained run, the first pass began on the listings and files the run started from |
| MasterKey.FilesAfterPassSession | apps/encryption/lib/Controller/MasterKeyController.php:238-241 | the files a pass leaves do not depend on whether the decrypt flag was already set when it began, since every rewrite of the pass sets it |
| MasterKey.OtherFailuresEmpty | apps/encryption/lib/Controller/MasterKeyController.php:216-221 | no rewritten path is recorded exactly when none of their rewrites throws past DecryptionFailed |
| MasterKey.SelectedClean | apps/encryption/lib/Controller/MasterKeyController.php:209-221 | over a walk whose flags say which files were encrypted, nothing is recorded exactly when no encrypted visited file throws past DecryptionFailed |
| MasterKey.PassClean | apps/encryption/lib/Controller/MasterKeyController.php:185-189 | a user's pass records no failure exactly when no file that was encrypted when the pass began throws past DecryptionFailed |
| MasterKey.LedgerEmptyUpTo | apps/encryption/lib/Controller/MasterKeyController.php:227 | the ledger after the first n passes is empty exactly when it started empty and none of those passes recorded a failure |
| MasterKey.CleanRun | apps/encryption/lib/Controller/MasterKeyController.php:86-98 | over all passes, the ledger ends empty exactly when it started empty and no file that was encrypted when its user's pass began threw past DecryptionFailed |
| MasterKey.DecryptProgressStep | apps/encryption/lib/Controller/MasterKeyController.php:227-229 | one more user's pass extends the ledger trail by the ledger it leaves; the count of deleting users grows by one exactly when that ledger is empty, and then the journal and the listings gain that user's key-storage deletion; otherwise they are unchanged and the ledger stays non-empty |
| MasterKey.LedgerTrailSnoc | apps/encryption/lib/Controller/MasterKeyController.php:216-221 | one more pass extends the ledger trail by the ledger that pass leaves, which becomes the current ledger |
| MasterKey.GatedSnoc | apps/encryption/lib/Controller/MasterKeyController.php:227 | with ledgers that only grow, the user just handled joins the deleting users exactly when the ledger it leaves is empty, and the gate holds for every user so far |
| Config.DeletionSnoc | apps/encryption/lib/Controller/MasterKeyController.php:228 | one more key-storage deletion appended to the journal and applied to the listings is the deletions of the users so far plus that user |
| Config.ReplayCommitted | apps/encryption/lib/Controller/MasterKeyController.php:78-98 | the listings after the deletions and then the reconfiguration are the replay of exactly the journal's new tail |
| MasterKey.MasterKeyController.DecryptUsersFiles | apps/encryption/lib/Controller/MasterKeyController.php:192-230 | the walk from `/<uid>/files` skipping shared entries handled every reachable entry once; each visited file is flagged exactly when it was encrypted when the pass started; the files are the rewrite fold over the flagged files; the ledger gains exactly the paths whose rewrite threw; key storage is deleted exactly when the ledger is empty; configuration is untouched |
| MasterKey.MasterKeyController.DecryptTree | apps/encryption/lib/Controller/MasterKeyController.php:198-225 | the stack walk terminates with every reachable non-shared entry handled once, each visited file flagged exactly when it was encrypted at the start, and the files, ledger and session matching the rewrites of the flagged files |
| MasterKey.MasterKeyController.DecryptListing | apps/encryption/lib/Controller/MasterKeyController.php:199-224 | the entries of one listing are handled in order, keeping the walk invariant; the listing reports each entry as it was when the walk started |
| MasterKey.MasterKeyController.DecryptEntry | apps/encryption/lib/Controller/MasterKeyController.php:200-223 | a shared entry is skipped, a directory pushed, a file visited and flagged exactly when it was encrypted at the start of the walk |
| MasterKey.ListingUnchanged | apps/encryption/lib/Controller/MasterKeyController.php:199 | the listing of a directory just popped reports every entry as it was when the walk started: no earlier rewrite touched one of its entries |
| MasterKey.NotFromListing | apps/encryption/lib/Controller/MasterKeyController.php:205 | a file visited before a directory was popped is not one of that directory's entries, and neither is its temporary |
| MasterKey.TargetOfChild | apps/encryption/lib/Controller/MasterKeyController.php:235 | the temporary of a directory entry is an entry of the same directory, with a '/'-free name |
| MasterKey.FlagsListedSnoc | apps/encryption/lib/Controller/MasterKeyController.php:211 | the flags still say which visited files were encrypted after one more file is visited with its encrypted flag |
| MasterKey.MasterKeyController.DecryptLeaf | apps/encryption/lib/Controller/MasterKeyController.php:209-223 | a visited file is rewritten exactly when listed as encrypted |
| MasterKey.MasterKeyController.DecryptListed | apps/encryption/lib/Controller/MasterKeyController.php:210-222 | the rewrite is applied and a throwing path is appended to the user's ledger entry |
| MasterKey.DecryptWalkEffect | apps/encryption/lib/Controller/MasterKeyController.php:198-225 | if no visited file is another's temporary: a visited file that was encrypted loses one layer and its temporary, or stays as it was after DecryptionFailed; a visited file that was not encrypted is untouched |
| MasterKey.SelectFacts | apps/encryption/lib/Controller/MasterKeyController.php:211-215 | exactly the visited files listed as encrypted are rewritten, each once |
| MasterKey.SelectSnoc | apps/encryption/lib/Controller/MasterKeyController.php:211-215 | a newly visited file joins the rewritten files exactly when listed as encrypted |
| MasterKey.OtherFailuresSnoc | apps/encryption/lib/Controller/MasterKeyController.php:216-221 | a newly rewritten file joins the failures exactly when its rewrite throws past DecryptionFailed |
| Ledger.AppendFailure | apps/encryption/lib/Controller/MasterKeyController.php:217-221 | the path is appended to the user's entry, which is created on first use; other users are untouched |
| Ledger.RecordAppend | apps/encryption/lib/Controller/MasterKeyController.php:216-221 | recording failures one at a time is recording their sequence |
| Ledger.RecordExtends | apps/encryption/lib/Controller/MasterKeyController.php:216-221 | recording only extends the ledger, which is empty afterwards exactly when it was empty and nothing was recorded |
| Ledger.ExtendsNonEmpty | apps/encryption/lib/Controller/MasterKeyController.php:227 | a ledger that held an entry stays non-empty |
| MasterKey.MasterKeyController.DecryptFile | apps/encryption/lib/Controller/MasterKeyController.php:232-250 | the files are the rewrite through `path.decrypted.<ts>` under `decryptAllCmd`; the flag is removed after success and stays set otherwise |
| Walk.InitialInv | apps/encryption/lib/Controller/MasterKeyController.php:195-196 | the stack seeded with the user root satisfies the walk invariant |
| Walk.PopStep | apps/encryption/lib/Controller/MasterKeyController.php:198 | popping starts a directory not popped before and keeps the invariant |
| Walk.PushStep | apps/encryption/lib/Controller/MasterKeyController.php:206-208 | pushing a subdirectory keeps the invariant |
| Walk.LeafStep | apps/encryption/lib/Controller/MasterKeyController.php:209-223 | visiting a file keeps the invariant |
| Walk.SkipStep | apps/encryption/lib/Controller/MasterKeyController.php:202-204 | skipping a shared entry keeps the invariant |
| Walk.FreshChild | apps/encryption/lib/Controller/MasterKeyController.php:205 | an entry met now was neither popped, stacked nor visited before |
| Walk.PopDecreases | apps/encryption/lib/Controller/MasterKeyController.php:198 | each pop shrinks the set of directories left, so the walk terminates |
| Walk.FinalStep | apps/encryption/lib/Controller/MasterKeyController.php:198 | with the stack empty, every reachable directory was popped, every reachable file visited once, and nothing else |
| Walk.InvReached | apps/encryption/lib/Controller/MasterKeyController.php:198-225 | at every step of the walk, the files visited are distinct and every popped directory and visited file is reachable from the seed |
| Walk.LeafReached | apps/encryption/lib/Controller/MasterKeyController.php:209-223 | visiting one more file keeps the invariant, and the files visited, that one included, are distinct and reachable |
| Walk.ChildAtInjective | apps/encryption/lib/Controller/MasterKeyController.php:205 | distinct entries have distinct paths |
| Paths.ChildInjective | apps/encryption/lib/Controller/MasterKeyController.php:205 | `root/name` determines root and name when names hold no '/' |
| Paths.Normalize | apps/encryption/lib/Controller/MasterKeyController.php:228 | the result starts with '/': a relative path gets '/' prepended, an absolute one is kept as it is |
| Storage.View.DeleteAll | apps/encryption/lib/Controller/MasterKeyController.php:228 | listings and files at or below the path are removed |
| Storage.View.Copy | apps/encryption/lib/Controller/MasterKeyController.php:155 | the copy outcome and files of `CopyFiles` |
| Strings.LastIndexOf | tests/TestHelpers/TagsHelper.php:152 | strrpos: the last position of the character, or none exactly when it does not occur |
| Strings.LastIndexOfBeforeSuffix | tests/TestHelpers/TagsHelper.php:152 | strrpos finds a separator followed by a separator-free suffix |
| Strings.DecimalString | apps/encryption/lib/Controller/MasterKeyController.php:235 | the timestamp is rendered as a non-empty string of decimal digits |
| Tags.ValidateTypeOfTag | tests/TestHelpers/TagsHelper.php:185-201 | exactly the three known types are accepted, with userVisible false only for "not user-visible" and userAssignable false only for "not user-assignable"; anything else throws "Unsupported type"; no accepted type clears both flags |
| Tags.ValidateTypeRoundTrip | tests/TestHelpers/TagsHelper.php:185-201 | every accepted type is recovered from its flags, and every flag pair but (false, false) comes from exactly one type |
| Tags.RequestedProperties | tests/TestHelpers/TagsHelper.php:68-77 | the five base properties in order, then groups exactly when withGroups is set, no property twice |
| Tags.FirstMatch | tests/TestHelpers/TagsHelper.php:101-105 | the index of the first non-empty tag whose display name strictly equals the query, or none exactly when no tag matches |
| Tags.RequestTagByDisplayName | tests/TestHelpers/TagsHelper.php:101-105 | the loop returns the tag at `FirstMatch`, or null exactly when nothing matches |
| Tags.CreateTagBody | tests/TestHelpers/TagsHelper.php:131-138 | the body always holds name, userVisible and userAssignable, and holds groups exactly when groups is not null |
| Tags.CreateTagBodyRoundTrip | tests/TestHelpers/TagsHelper.php:131-138 | every field of the request is read back from the body unchanged, and null groups stay absent |
| Tags.LastTagId | tests/TestHelpers/TagsHelper.php:151-152 | with a '/' in the URL, the id is the '/'-free suffix after the last '/'; without one, the URL minus its first character, or "" for an empty URL |
| Tags.LastTagIdRoundTrip | tests/TestHelpers/TagsHelper.php:151-152 | the id of `base + "/" + id` is id for any '/'-free id |

## Left out

- The storage view's own code (`View`), the transform layer, the user manager and the application configuration are not part of this model. They appear only through the effects the controller relies on: listings, file contents with an encryption-layer count, failures per path, and pages of users.
- `setupUserFS`, the logger, the `echo` progress lines and the user-count strings are left out: they are I/O with no effect on the modelled state.
- `validateMasterKey` in `reencryptFiles` is left out: it is a call into the key manager, which is not part of this model.
- `time()` becomes one timestamp for the whole decrypt step and one for the whole re-encrypt step, instead of a clock read per file. Every temporary of a step carries the same suffix, and the no-clash conditions of `DecryptWalkEffect` and `RewriteAllEffect` are stated for that single suffix.
- Which paths throw from the transform layer, and with which exception kind, is a fixed map given with the view. Exceptions thrown by listing or by rename are not modelled.
- The cipher is abstract: a file's content is its plaintext and a count of encryption layers. The precedence of the two session flags in the transform is a modelling choice: `decryptAllCmd` wins. So when a decrypt step ends on a failed rewrite and leaves `decryptAllCmd` set, a later encrypt rewrite in the same session takes a layer off in the model instead of adding one.
- Copy and rename change file contents only, not the directory listings; a temporary file is never listed. The walk lists each directory once, from the listings as they stand when the walk starts.
- Storage.View.DeleteAll: removes the listings and files at or below the path but leaves the deleted directory's entry in its parent's listing. No walk can meet that entry, since a key storage lies outside every user's files tree (`KeyStorageOutsideFiles`).
- A backend's users are one fixed finite list that pages are sliced from, so paging always ends. A backend that keeps returning full pages, or whose users shift between pages, is outside the model.
- PHP's `while ($root = array_pop($directories))` also stops on a falsy path such as "0". The model stops only on an empty stack, which is the same here, because every walked path starts with '/'.
- MasterKey.MasterKeyController.DecryptAllUsersFiles: states the files each pass leaves as the rewrite fold of that pass followed by its key-storage deletion (`FilesAfterPass`), chained pass by pass. The per-file outcome within a pass is stated by `DecryptWalkEffect` under its no-clash condition, not restated across passes.
- Shared mounts are not aliased: an entry mounted from shared storage is its own path with its own content, not the owner's file. So the model does not capture why the decrypt walk skips shared entries (`MasterKeyController.php:201-203`, to avoid handling the owner's file through another user's tree), and it does not capture that the encrypt walk, which has no such skip, handles an owner's file once more through each user it is shared with.
- MasterKey.MasterKeyController.CreateNewMasterKey: states the files as those the last decrypt pass left, put through the reconfiguration steps when it ran; like `DecryptAllUsersFiles`, it does not restate the per-file outcome of each pass.
- MasterKey.DecryptWalkEffect: covers only runs in which no visited file's name equals another visited file's temporary name; with such a clash, the later rewrite can overwrite the earlier file.
- MasterKey.MasterKeyController.EncryptAllUserFilesWithMasterKey: states the file effect as one rewrite fold over all users' walks concatenated; the per-file outcome is stated by `RewriteAllEffect` under the same no-clash condition.
- Tags.RequestedProperties: takes `withGroups` as a bool. PHP tests a string for truthiness, so "" and "0" count as false; the model leaves that conversion to the caller.
- Tags.LastTagId: follows PHP 8's `substr`, which returns "" for an empty URL. Under PHP 7, `substr("", 1)` returns false, and under PHP 5 so does a URL ending in '/'; that version-dependent edge is not modelled.
- Tags.CreateTagBody: the body is a map from field name to value, so the field order of the JSON the PHP builds is not modelled.
- The WebDAV requests in the tag helpers are left out, and so are the parts of `tagFile`, `requestTagsForUser`, `createTag` and `deleteTag` that only build or send them. This includes the integer cast of the tag id and the response handling; they are network I/O.
