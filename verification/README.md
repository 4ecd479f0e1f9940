# A verified model of the platform's release, storage, touch and game cores

This Dafny project models the parts of the platform whose correctness depends on more than one
function, and proves what they promise over all inputs, all runs and all interruptions.
`dafny verify dfyconfig.toml` checks everything.

- **Release lifecycle** (`ReleaseState`, `ReleaseLifecycle`, `StateStore`, `StoreRuns`,
  `RollbackPolicy`): the anti-rollback record and its codec, activation and rollback, the two-slot
  store and the install policy, as one protocol in which power may be lost between any two steps.
  Every run on disk is shown to follow the lifecycle, whose invariant is stronger than the check the
  code makes.
- **Installer** (`Staging`, `PackageInstaller`, `DeviceRuns`, `DeviceReleases`, `DeviceInstalls`,
  `DeviceHistory`): the payload store with its directories, the install transaction, verification and
  rollback of installed releases, and runs of all of these over every application of a device, up to
  what was asked of any release that loads.
- **Packages** (`CanonicalJson`, `JsonReader`, `Paths`, `PackageLayout`, `PackageFormat`, `Package`): the
  canonical JSON printer and a reader of RFC 8259 that reads back what it prints, the path check, the
  table walk that tiles the payload, and the package format byte for byte, whose packages are exactly
  those that verify.
- **Sandbox** (`RuntimeSandbox`): the seccomp filter builder as a compiler, an interpreter for the
  programs it emits, and the proof that the program means the policy.
- **2048** (`Game2048Line`, `Game2048Board`, `Game2048Motions`, `Game2048`, `Game2048Rules`, `Game2048Runs`,
  `GamePersistence`, `Crc`, `Words`): the game object and the rules it follows, the agreement of board, motion list and phase
  test, the score potential over whole games, and saves that survive or are refused.
- **Wire formats** (`ApplicationRegistry`, `StorageProtocol`, `SessionControl`, `InstallerProtocol`,
  `WireFormats`, and the codecs above): each decoder accepts exactly the canonical bytes, and these are
  written out a second time as literals.
- **Touch** (`TouchProtocol`, `TouchRouter`, `TouchCompleteness`, `TouchLauncher`, `SessionStatus`): the
  guards, the router over an arbitrary channel and exactly what it lets through, the launcher's end of
  it, and the status text by which it finds the session.
- **Record storage** (`StorageBroker`, `StorageRuns`): quota, atomic replacement and leftovers in one
  directory, and sessions of many requests on one descriptor.
- **Screen** (`Rotation`): the coordinate maps and the pixel-copy loops.

`Bytes`, `Text` and `FileWrite` hold what the others share: little-endian integers, the identifiers and
text orders of the platform, and the loop that writes or reads a file.

Where the source updates an object or a buffer in place, the model is a class or a method on an array;
its contract ties the new state to a function of the old one, and the properties are proved of that
function. Codecs are shown as: an encoder method that produces a specified byte string, a decoder
function (and its method where the source loops), and a lemma saying that a byte string decodes to a
value if and only if the value is valid and the string is its encoding.

What the world does is a parameter. Hashing and signature verification are deterministic functions that
may be unavailable. System calls succeed, fail, or are the last thing that happens before power is lost,
as an environment value says. A change to a directory is visible at once and durable once the directory
has been synced; until then power loss may leave any of the contents the directory has had since,
changes to one directory reaching the disk in order. The state store, the releases and the record
storage all keep what is visible apart from what power loss may leave. The clock, random bytes,
directory order and datagrams are arguments. Runs quantify over all of these.

## What turned out to need care

- The code's validity check for release states, which every transition repeats, is too weak to show that
  rollback works; `ReleaseLifecycle.ValidStateIsTooWeak` gives a valid state from which it is refused.
  `ReleaseLifecycle.RollbackExactly` says from which valid states it is not, and reachable states satisfy
  the stronger `ReleaseLifecycle.Inv`.
- Parity protects a commit even when a torn write leaves a slot undecodable. Writing the newest
  generation again, which an idempotent activation does, relies on rename being atomic;
  `StateStore.TornRewriteNeedsRedundancy` says exactly when.
- A persist that reports an error may still have put the new state in place: the lemmas about persist
  promise the old or the new state, and the new one only after success. When it was the sync that
  failed, the new state loads and power loss may go back to the old one. What loads is protected if and only
  if it loaded after the last start, power loss or reported success (`StoreRuns.ProtectedExactly`,
  `DeviceRuns.DeviceProtectedExactly`, `StoreRuns.UnsyncedCommitFallsBack`).
- A commit that reports degradation leaves the new state in one slot. If that slot cannot be read later,
  loading falls back to the older one, and the next commit overwrites the newer (`StateStore.FaultyLoad`,
  `StoreRuns.BlindCommitLoses`). Full success excludes this until the next commit
  (`StoreRuns.WrittenIsRedundant`, `DeviceInstalls.FullSuccessIsSighted`). The theorems about runs hold
  when no load takes an older state for the one that is there.
- A first commit that fails after the directory was opened and before its first slot is there leaves an
  application that can never be installed again (`StateStore.UninitializedExactly`,
  `DeviceRuns.UninitializedIsStuck`, `DeviceRuns.StuckForever`).
- A staged release that is found already present is not synced again. When its own sync had failed, an
  install that reports success may leave a policy naming a release that power loss takes away.
  `DeviceReleases.CarefulExactly` gives the condition to check before the call,
  `DeviceReleases.RetryLosesRelease` the input.
- Verification accepts files that cannot live beside each other, as `a` and `a/b`, or that take the name
  of the package copy; such a package is never staged (`Staging.StagingExactly`,
  `Staging.FileBelowFile`).
- The installer takes identifiers that the session does not. Such an application can be installed, and
  neither started nor rolled back (`DeviceReleases.NamedReleaseVerifies`,
  `DeviceReleases.DashedNeverVerifies`).
- A session scans its directory through one descriptor and does not go back to the start. So only its first
  request sees what is there. Every later write is admitted if and only if the record does not exist and fits
  the quota by itself: the limits can be exceeded, existing records are refused, leftovers stay
  (`StorageRuns.LaterWrites`, `StorageRuns.TwoRecordsWhereOneFits`). The quota holds exactly when every
  write is guarded, as it is when the directory is opened anew for each (`StorageBroker.GuardExactly`,
  `StorageRuns.QuotaHolds`, `StorageRuns.OpeningFirstIsGuarded`).
- A record whose last sync failed can be read and may vanish at power loss. A later read makes it durable only
  if its scan deletes a leftover and syncs (`StorageRuns.SurelyThereExactly`,
  `StorageRuns.UnsyncedRecordMayVanish`).
- The policy allows a quarantined release; the transition refuses it.
- The last sum of the package layout check is not a checked one. It cannot wrap for development builds
  or for packages at least as long as their signature envelope; `PackageLayout.LayoutFits` and
  `PackageLayout.LayoutCanWrap` give both sides, and `PackageLayout.VerifyStructure` says exactly when the
  walk then reads past the end.
- Two tiles of 32768 score when they meet but do not add up. The score potential holds exactly until
  then, and the model carries the correction afterwards.
- Setting a best score can lower it below the score kept for undo; such a game cannot be restored.
- An installer response carries one detail string. A response whose candidate has another detail comes
  back with the outer one.
- Touch frames are accepted from a launcher only while the nonce stays: a relaunch that still finds
  the old nonce starts the sequence over, and exactly as many frames are refused as had been accepted
  before (`TouchLauncher.RelaunchStartsOver`).

## Model

| member | source | states |
|---|---|---|
| Text.CheckAppId | platform/src/storage/release_state.cpp:62-83 | the flag loop accepts exactly the identifiers of the declarative definition: short, no leading dot, single separators, at least one |
| Text.CheckSessionAppId | platform/src/session/session_control.cpp:33-55 | the same for session identifiers, where a dot must occur and the length stays below 96 |
| Text.IdentifiersArePieces | platform/src/session/session_control.cpp:33-55 | both identifiers by their grammar: ordinary characters each with at most one dash or dot before it, no dot in front, and a separator of the right kind somewhere |
| Text.LexLessMeans | platform/src/session/application_registry.cpp:92-95 | identifiers compare by their first difference, where the end is smaller than any byte |
| ReleaseState.EncodeReleaseState | platform/src/storage/release_state.cpp:131-168 | appending field after field gives the record's specified bytes, or the specified error for an invalid state or a missing hash |
| ReleaseState.SizeAlwaysFits | platform/src/storage/release_state.cpp:131-168 | every valid state encodes to at most 416 bytes, so the size error of the encoder cannot occur |
| ReleaseState.DecodeInvertsEncode | platform/src/storage/release_state.cpp:131-214 | decoding the encoding of any valid state gives that state |
| ReleaseState.EncodeInvertsDecode | platform/src/storage/release_state.cpp:170-214 | every byte string the decoder accepts is the encoding of the state it decodes to |
| ReleaseState.DecodeErrorMeans | platform/src/storage/release_state.cpp:170-214 | exactly when the decoder blames the layout, the missing hash, the checksum or a value |
| WireFormats.ReleaseFormat | platform/src/storage/release_state.cpp:98-214 | in literal bytes: a string decodes to a state if and only if the fields are valid, each condition written out, and the string is these bytes followed by their checksum |
| ReleaseState.SelectIsNewest | platform/src/storage/release_state.cpp:216-232 | slot selection fails exactly when neither slot decodes or both decode to different states of one generation; otherwise nothing decodable is newer than what it returns |
| ReleaseLifecycle.RunInv | platform/src/storage/release_state.cpp:234-311 | in every run of activations, rollbacks and reloads: previous < current <= high, and current = high unless the last rollback quarantined high and left no previous release |
| ReleaseLifecycle.HighWaterNeverFalls | platform/src/storage/release_state.cpp:234-311 | over every run the high release, the high epoch and the generation never decrease, application and signer never change, and one generation stands for one state |
| ReleaseLifecycle.BoundForever | platform/src/storage/release_state.cpp:234-311 | once a counter has appeared with a digest, it can only ever appear with that digest |
| ReleaseLifecycle.OneDigestPerCounter | platform/src/storage/release_state.cpp:255-281 | any two mentions of one counter in a run carry the same digest, in whichever order they occur |
| ReleaseLifecycle.QuarantineIsForever | platform/src/storage/release_state.cpp:234-311 | a release once quarantined is never current or previous again, and stays at or below the high-water mark |
| ReleaseLifecycle.RollbackSucceeds | platform/src/storage/release_state.cpp:290-311 | in a reachable state a rollback is refused only for want of a previous release or of a further generation, and it quarantines exactly the release that was current, which was the highest |
| ReleaseLifecycle.RollbackExactly | platform/src/storage/release_state.cpp:290-311 | from any state that the code calls valid a rollback succeeds if and only if there is a previous release and a further generation, and a previous release that is the highest one carries the highest digest |
| ReleaseLifecycle.FirstActivationMeans | platform/src/storage/release_state.cpp:255-281 | what the first activation makes: generation one, the release current and highest, nothing previous, quarantined or failed |
| ReleaseLifecycle.UpgradeMeans | platform/src/storage/release_state.cpp:255-288 | from every reachable state, when an activation is accepted, and what it makes of it: a release not current becomes current and highest, the one that was current becomes previous with its digest, and the quarantine stays; the release already current changes nothing |
| ReleaseLifecycle.RollbackMeans | platform/src/storage/release_state.cpp:290-311 | what a rollback makes: the previous release current with its digest, the old one quarantined, nothing previous, marks kept, failures counted up to three or cleared |
| ReleaseLifecycle.RollbackUndoesUpgrade | platform/src/storage/release_state.cpp:255-311 | after every accepted upgrade but one of the last generation, rollback succeeds and the old release with its digest is current again |
| ReleaseLifecycle.LeadsMeansProtects | platform/src/storage/release_state.cpp:234-311 | whatever events follow a reachable state, nothing that protects it is lost: marks do not fall, a quarantined release stays retired, a counter keeps its digest |
| ReleaseLifecycle.ValidStateIsTooWeak | platform/src/storage/release_state.cpp:98-117 | the code's own validity check is weaker than the invariant: a concrete valid state from which rollback is refused though a previous release and a further generation exist |
| FileWrite.MoveAll | platform/src/storage/state_store.cpp:108-118 | the loop that writes a file, or reads one, moves exactly the prefix that the counts returned by the kernel reach, and reports success exactly when that is everything; the daemon has the same loops |
| FileWrite.ReachedMeans | platform/src/storage/state_store.cpp:108-118 | the loop moves the sum of what the calls before the first failed or empty one moved, up to the size |
| StateStore.Store.WriteSlot | platform/src/storage/state_store.cpp:142-159 | one slot write in place, with its outcome, what is visible after it and what power loss may leave, at every point of failure: a rename whose sync fails or is cut short is visible and not durable |
| StateStore.Store.Persist | platform/src/storage/state_store.cpp:230-268 | the two-slot write in the order the generation's parity picks, with the status, what is visible and what power loss may leave, for every environment |
| StateStore.AnswerMeans | platform/src/storage/state_store.cpp:230-268 | what each answer of a commit means: exactly which environments lead to each of the eight |
| StateStore.SlotsInOrder | platform/src/storage/state_store.cpp:230-268 | slot b is written first for even generations and slot a for odd ones; a commit that stops before the first rename changes nothing, after it that slot alone, and a whole one leaves both slots written and durable |
| StateStore.LoadAnswerMeans | platform/src/storage/state_store.cpp:270-307 | exactly when a load refuses, finds nothing, or finds an uninitialized store, and that a state comes with loaded or degraded only |
| StateStore.LoadReturnsNewest | platform/src/storage/state_store.cpp:270-307 | whenever a directory holds a state, loading returns it, and reports degradation exactly when the other slot is unreadable |
| StateStore.FaultyLoad | platform/src/storage/state_store.cpp:270-307 | what a load returns whatever fails in it, and so when it cannot return an older state: if and only if the newest slot is read, or nothing is, or the other slot holds the same state or none |
| StateStore.RedundantLoads | platform/src/storage/state_store.cpp:270-307 | when both slots hold the state no failure of a load brings an older one back, and one slot is enough |
| StateStore.PersistNextGeneration | platform/src/storage/state_store.cpp:248-266 | whatever happens while the next generation is written, even if the slot being written is torn, the old state or the new one is visible, power loss leaves one of them or what it might have left before, and after a reported success only the new one; after full success both slots hold it |
| StateStore.PersistSameGeneration | platform/src/storage/state_store.cpp:248-266 | writing the newest generation again keeps it, visibly and after power loss, under atomic rename, also from a degraded store |
| StateStore.TornRewriteNeedsRedundancy | platform/src/storage/state_store.cpp:248-257 | without atomic rename, tearing the first slot of such a repeated write keeps the state if and only if the other slot already holds it |
| StateStore.FirstPersist | platform/src/storage/state_store.cpp:230-268 | the first commit leaves the state or nothing loadable, visibly and after power loss, and only the state whenever success was reported |
| StateStore.SucceededExactly | platform/src/storage/state_store.cpp:230-268 | a commit reports success if and only if the store can be opened, the first slot is written and synced, and power is not lost in writing the second |
| StateStore.UninitializedExactly | platform/src/storage/state_store.cpp:200-268 | a first commit leaves a store that loads as uninitialized if and only if opening was refused or lost after the directory had been created, or the first slot write put nothing there; and what power loss may then leave |
| StoreRuns.PersistTracks | platform/src/storage/state_store.cpp:230-268 | load, transition and persist together: the state before or after the event is visible, power loss falls back no further than it could before, and not at all after a reported success |
| StoreRuns.StoreRefinesLifecycle | platform/src/storage/state_store.cpp:230-307 | over every run of operations on a settled store, with failures and power loss in or between any of them, in which no load takes an older state for the one that is there: what is visible, and what power loss may leave, is a state that lifecycle events lead to from the one at the start |
| StoreRuns.NoRollbackOnDisk | platform/src/storage/state_store.cpp:230-307 | what loads at the start, after a power loss, or after a commit that reported success is protected from then on: every later load returns a state that keeps its marks, epoch, generation, quarantine, and one digest to a counter |
| StoreRuns.PersistSettlesExactly | platform/src/storage/state_store.cpp:230-268 | after a commit has answered, power loss changes nothing about what loads if and only if success was reported or the state that loads is the one that loaded before |
| StoreRuns.ProtectedExactly | platform/src/storage/state_store.cpp:230-307 | at any point of a run, power loss keeps whatever protects the state that loads if and only if the same state loaded after the last start, power loss or reported success |
| StoreRuns.WrittenIsRedundant | platform/src/storage/state_store.cpp:230-307 | from a commit that reports full success until the next commit is tried, power lost or not, no failure of a load brings an older state back |
| StoreRuns.BlindCommitLoses | platform/src/storage/state_store.cpp:270-307 | the input that degraded success leaves open: with the newest slot unread, an operation commits upon the older state, reports full success, and what protected the newest state is lost |
| StoreRuns.UnsyncedCommitFallsBack | platform/src/storage/state_store.cpp:142-159 | the case that is not settled: a commit whose directory sync fails reports an error, the new state loads, and power loss may go back to the old one, which does not protect it |
| RollbackPolicy.ParseVersion | platform/src/package/rollback_policy.cpp:16-39 | the parsing loop accepts exactly the dotted triples of 32-bit decimals and returns their values |
| RollbackPolicy.VersionUnique | platform/src/package/rollback_policy.cpp:16-39 | a text is a version in at most one way |
| RollbackPolicy.CheckVersionAtLeast | platform/src/package/rollback_policy.cpp:41-47 | the comparison holds exactly when both texts are versions and the first is lexicographically at least the second |
| RollbackPolicy.VersionAtLeastMeans | platform/src/package/rollback_policy.cpp:41-47 | the comparison is that of the parsed triples, whichever way they are found |
| RollbackPolicy.EvaluateInstallPolicy | platform/src/package/rollback_policy.cpp:56-113 | the checks in order and the loop over the capabilities compute the decision that `DecisionIsFirstViolation` characterises |
| RollbackPolicy.DecisionIsFirstViolation | platform/src/package/rollback_policy.cpp:56-113 | the decision is the first violation in a list of twelve, each written out by itself, and a release is allowed if and only if there is none |
| RollbackPolicy.TripleIsVersion | platform/src/package/rollback_policy.cpp:16-39 | three strings joined by dots are a version if and only if each is a decimal numeral of at most 32 bits |
| RollbackPolicy.VersionIsTriple | platform/src/package/rollback_policy.cpp:16-39 | and every version is three such strings |
| RollbackPolicy.PolicyAndTransitionAgree | platform/src/package/rollback_policy.cpp:93-131 | in every reachable state the transition accepts exactly what the anti-rollback policy allows, except a quarantined release and an exhausted generation, and its high-water mark is the one the policy computes |
| RollbackPolicy.AllowedReleaseActivates | platform/src/package/rollback_policy.cpp:56-131 | the same for the full decision, with and without an installed release: an allowed release activates if and only if it is not quarantined and a generation is left |
| RollbackPolicy.PolicyAloneAllowsQuarantined | platform/src/package/rollback_policy.cpp:93-113 | after a rollback the policy alone still allows the quarantined release; only the transition stops it |
| Staging.PayloadStore.CreateFile | platform/src/storage/safe_path.cpp:121-141 | makes the directories of a path one by one and creates the file at its end, stopping at a file in place of a directory or at anything already there |
| Staging.PayloadStore.FillStage | platform/src/storage/safe_path.cpp:304-316 | the file loop: the tree it builds, and the status it stops with |
| Staging.PayloadStore.Stage | platform/src/storage/safe_path.cpp:247-344 | staging under a temporary name and renaming into place without replacing: the status, the releases that are visible and those that power loss may take away, for every point of failure or power loss |
| Staging.CreateExactly | platform/src/storage/safe_path.cpp:121-141 | creating the next file of a package succeeds if and only if its path and those before are neither equal nor directories of one another, and the tree then holds exactly those files and the directories above them |
| Staging.SafeComponentMeans | platform/src/storage/safe_path.cpp:27-34 | the names that may become a directory, in character codes |
| Staging.NamesMean | platform/src/storage/safe_path.cpp:143-161 | the names of the package copy and of the marker, spelled out |
| Staging.StagingExactly | platform/src/storage/safe_path.cpp:247-344 | a verified package that is new is staged if and only if nothing in the environment stops it, no path is a directory of another, and none takes the place of the package copy or the marker; other packages are never staged and leave nothing under their name |
| Staging.FileBelowFile | platform/src/storage/safe_path.cpp:121-161 | inputs that verification accepts and staging never does: the files a and a/b, and a file with the name of the package copy |
| Staging.FilesAreThere | platform/src/storage/safe_path.cpp:304-316 | after the file loop every file of the manifest is found at its path with its bytes and mode |
| Staging.SyncFailure | platform/src/storage/safe_path.cpp:275-339 | when only the sync after the rename fails, an error is reported, the release is in place without being durable, and staging it again reports that it is already present |
| PackageInstaller.StagingKeepsComplete | platform/src/storage/safe_path.cpp:247-344 | staging adds at most the release named, and only as a complete directory; nothing else changes, and after success the release is there with its digest and signer, durable unless it was present and unsynced before |
| PackageInstaller.Device.InstallPackage | platform/src/package/package_installer.cpp:20-100 | the transaction verify, load, policy, stage, activate, persist, with its status and both stores after it |
| PackageInstaller.Device.VerifyRelease | platform/src/session/session_daemon.cpp:582-617 | a release is accepted exactly when its application has a session identifier that is not reserved, its files all equal the package they came from, and it suits the device |
| PackageInstaller.VerifiesExactly | platform/src/session/session_daemon.cpp:582-617 | the conditions written out one by one: the identifier, the package and its digest, the signature, identity and signer, every file with its bytes and mode, and nothing the policy finds against it |
| PackageInstaller.ReservedMeans | platform/src/session/session_daemon.cpp:576-580 | the three identifiers the platform keeps for itself, spelled out |
| PackageInstaller.Device.RollBackAfterFailure | platform/src/session/session_daemon.cpp:639-669 | rollback as check the identifier, load, verify previous, compute, persist, with the policy store after it |
| DeviceRuns.CommitKeeps | platform/src/package/package_installer.cpp:80-87 | committing a transition: what is visible, or power loss may leave, loads the old state, the new one, what it might have loaded before, or nothing; after a reported success only the new one; also for the first install |
| DeviceRuns.OperationKeepsPolicies | platform/src/package/package_installer.cpp:20-100 | every operation changes one application only, commits only the transition it stands for, and when it reports success its state is settled |
| DeviceRuns.RunKeepsPolicies | platform/src/package/package_installer.cpp:20-100 | over every run of installs, rollbacks and power losses in which no load takes an older state for the one that is there, everything that loads for any application, or could after power loss, is a reachable state |
| DeviceRuns.DeviceNeverRollsBack | platform/src/package/package_installer.cpp:20-100 | over every run of the whole device: what an application loads after a power loss, or after an operation on it that reported success, is protected from then on; a state always loads and keeps all that protects it, quarantine and digests included |
| DeviceRuns.ReportedIsProtected | platform/src/package/package_installer.cpp:80-100 | in particular from every install or rollback that reports success: the state it committed is never lost and never protected less |
| DeviceRuns.ProjectRun | platform/src/package/package_installer.cpp:20-100 | a run of a device is, for each application from a power loss on, a run of its store, with the same events that confirm what loads |
| DeviceRuns.DeviceProtectedExactly | platform/src/package/package_installer.cpp:20-100 | after a power loss, at any later point, another one keeps whatever protects the state an application loads if and only if the same state loaded after the last power loss or reported success |
| DeviceRuns.StuckForever | platform/src/package/package_installer.cpp:44-53 | an application whose store exists durably and holds no state stays so in every run, and no operation on it ever succeeds |
| DeviceRuns.UninitializedIsStuck | platform/src/package/package_installer.cpp:44-53 | a first install that leaves the store uninitialized leaves it so for good if and only if the directory had been opened |
| DeviceReleases.OperationKeepsDevice | platform/src/package/package_installer.cpp:20-100 | every careful operation keeps, for every application, that all that loads or may load names complete releases that power loss cannot take away |
| DeviceReleases.RunKeepsDevice | platform/src/package/package_installer.cpp:20-100 | so does every careful run, with failures and power loss at any step; careful means not installing a release that is present without ever having been synced |
| DeviceReleases.CarefulExactly | platform/src/storage/safe_path.cpp:275-339 | care is exactly what it takes: after an install that reports success, every policy that loads names installed and complete releases whatever power loss leaves, if and only if the install was careful |
| DeviceHistory.LoadedWasAllowed | platform/src/package/package_installer.cpp:20-100 | over every device run, whatever loads names as current a release brought by an earlier install of an officially signed package, all of whose capabilities that install's context granted, and whose SDK, platform, profile and machine it suited |
| DeviceReleases.RetryLosesRelease | platform/src/storage/safe_path.cpp:282-339 | the input that shows it: the sync of a staged release fails, the retry finds it present, syncs nothing and reports success, and power loss leaves a policy that names a missing release |
| DeviceInstalls.UnsyncedExactly | platform/src/storage/safe_path.cpp:275-339 | a release is not durable if and only if some install reported a storage failure although the release appeared, and since then no power was lost and no other release of the application was stored |
| DeviceReleases.NamedReleaseVerifies | platform/src/session/session_daemon.cpp:576-617 | on a reachable device the current and the previous release verify if and only if the application has a session identifier that is not reserved and the release suits the device |
| DeviceReleases.DeviceRollbackSucceeds | platform/src/session/session_daemon.cpp:639-669 | on a reachable device a rollback succeeds if and only if the identifier may be rolled back, there is a previous release that suits the device, a generation is left, and the commit succeeds |
| DeviceHistory.UpgradeOnDevice | platform/src/package/package_installer.cpp:59-100 | after an install that reports success what loads names the new release as current and the one that was current, with its digest, as previous |
| DeviceHistory.UpgradeIsUndone | platform/src/session/session_daemon.cpp:639-669 | after such an upgrade a rollback succeeds if and only if the state loads, the identifier may be rolled back, a generation is left, the old release suits the device and the commit succeeds; the old release is then current again with its digest |
| DeviceReleases.DashedNeverVerifies | platform/src/session/session_daemon.cpp:576-592 | an identifier the installer takes and the session does not, a-b: its releases never verify and are never rolled back |
| DeviceInstalls.InstallsExactly | platform/src/package/package_installer.cpp:20-100 | on a reachable device a new verified package installs if and only if the state loads or there is none yet, it can be hashed, the policy allows it, it is not the quarantined release, a generation is left, its files can live beside each other, and nothing in the environment stops it |
| DeviceInstalls.InstalledIsRedundant | platform/src/package/package_installer.cpp:80-100 | after an install that reports full success both slots hold its state, and nothing else is left |
| DeviceInstalls.FullSuccessIsSighted | platform/src/package/package_installer.cpp:44-53 | from then until the next operation on the application no failure of a load takes an older state for the one that is there, power lost or not |
| Paths.CheckPath | platform/src/package/package_verifier.cpp:252-273 | the segment loop accepts exactly the relative paths all of whose segments are plain names |
| Paths.ValidPathMeans | platform/src/package/package_verifier.cpp:252-273 | a path is accepted if and only if it has one to 240 bytes, no backslash, and every stretch between slashes is not empty, does not end in a dot, and holds no reserved or control byte |
| Paths.SplitPath | platform/src/storage/safe_path.cpp:107-119 | for every path, the empty one and one that ends in a slash included, the component loop yields its specified components |
| Paths.ValidPathPlaces | platform/src/storage/safe_path.cpp:107-132 | an accepted path is split into its segments, none of them empty, and the places on the way to its end are its beginnings before a slash |
| Paths.AboveIsPlace | platform/src/storage/safe_path.cpp:121-132 | every directory above a path is one of the places the loop over its components passes |
| Paths.JoinOfSplit | platform/src/storage/safe_path.cpp:107-119 | joining the components gives back the path |
| Paths.ValidPathStaysInside | platform/src/package/package_verifier.cpp:252-273 | no component of an accepted path is empty, the directory itself or its parent, and the components join to the path |
| CanonicalJson.CanonicalString | platform/src/package/package_verifier.cpp:128-154 | the escaping loop appends exactly the quoted and escaped text |
| CanonicalJson.EscapeForms | platform/src/package/package_verifier.cpp:128-154 | every byte is printed in its shortest form, with lower-case digits |
| CanonicalJson.Canonical | platform/src/package/package_verifier.cpp:156-208 | the recursive printer succeeds exactly on the accepted values and then appends their canonical text |
| CanonicalJson.AcceptedMeans | platform/src/package/package_verifier.cpp:128-208 | a value is printed if and only if nothing that occurs in it is refused: no unlisted control character, no number outside the range of integers, no object out of order |
| JsonReader.TextIsRead | platform/src/package/package_verifier.cpp:156-208 | a reader of JSON by the grammar of RFC 8259, written without the printer, reads the text of every accepted value back as that value and stops where it ends |
| JsonReader.DocumentIsRead | platform/src/package/package_verifier.cpp:156-208 | the canonical text is a JSON text of exactly the value printed |
| JsonReader.EscapePrefix | platform/src/package/package_verifier.cpp:128-154 | escapes are self-delimiting: two escaped bytes followed by anything agree only if the bytes and the rests agree |
| JsonReader.StringPrefix | platform/src/package/package_verifier.cpp:128-154 | so are quoted strings |
| JsonReader.TextPrefix | platform/src/package/package_verifier.cpp:156-208 | so are the texts of all accepted values, numbers being delimited by what may follow them |
| JsonReader.CanonicalIsInjective | platform/src/package/package_verifier.cpp:156-208 | two accepted values print to the same bytes if and only if they are equal |
| CanonicalJson.MembersDetermineObject | platform/src/package/package_verifier.cpp:182-205 | accepted objects with the same members are the same list: member order carries no information |
| PackageLayout.LayoutFits | platform/src/package/package_verifier.cpp:451-466 | the three checked sums never overflow, and the layout check bounds all regions by the package if and only if the package is a development build or at least as long as its envelope |
| PackageLayout.LayoutCanWrap | platform/src/package/package_verifier.cpp:458-466 | below that length the last, unchecked sum can wrap: a concrete header that passes |
| PackageLayout.ReadManifest | platform/src/package/package_verifier.cpp:468-492 | a manifest is read exactly when its text denotes an object, the printer accepts it and prints exactly that text, and its fields are in order |
| PackageLayout.EntryAccepted | platform/src/package/package_verifier.cpp:501-535 | an entry passes all its checks if and only if it is the canonical record of the file expected there and its content has the hash |
| PackageLayout.WalkTable | platform/src/package/package_verifier.cpp:494-543 | the table loop returns the first problem there is, succeeds exactly when the table is the canonical table of the manifest's files and every hash agrees, and reads outside the buffer exactly when the regions do not fit it and the table has room for a record |
| PackageLayout.VerifyStructure | platform/src/package/package_verifier.cpp:431-543 | header, layout, manifest and table checks together, every refusal and every read past the buffer; `PackageFormat` shows which byte strings these are |
| PackageFormat.AssembledIsVerified | platform/src/package/package_verifier.cpp:431-543 | of any parts in order, a package assembled byte for byte from the format verifies with exactly its files where they lie; a development package is refused unless allowed, and otherwise the first damaged content is reported |
| PackageFormat.VerifiedIsAssembled | platform/src/package/package_verifier.cpp:431-543 | and nothing else verifies: every accepted byte string is assembled from such parts |
| PackageLayout.FilesTilePayload | platform/src/package/package_verifier.cpp:494-543 | after success the files tile the payload: every payload byte belongs to a file, none reaches outside, no two share a byte |
| PackageLayout.PathsAscend | platform/src/package/package_verifier.cpp:521-523 | after success all paths are strictly ascending, so no two are equal |
| PackageLayout.EntryInRange | platform/src/storage/safe_path.cpp:315-320 | every file of a verified package lies within it, at the offset the table gives |
| PackageLayout.VerifiedIsStageable | platform/src/session/session_daemon.cpp:500-506 | the range checks made later, in staging and in matching an installed release, cannot fail |
| PackageLayout.VerifiedPaths | platform/src/package/package_verifier.cpp:517-522 | after success every path is one that staging takes apart safely, and of two paths that clash the earlier is a directory of the later |
| PackageLayout.SignedPartIsCanonical | platform/src/package/package_verifier.cpp:431-543 | two structured packages agree on every signed byte if and only if they are of the same kind, their manifests denote the same value, and their payloads are equal |
| RuntimeSandbox.FilterBuilder.AppendFlagRestrictedSyscall | src/runtime/runtime_sandbox.cpp:69-80 | pushes exactly the six instructions of a flag check |
| RuntimeSandbox.FilterBuilder.AppendDrmIoctlFilter | src/runtime/runtime_sandbox.cpp:82-108 | pushes exactly the descriptor block, its two long jumps computed from the number of requests |
| RuntimeSandbox.FilterBuilder.Build | src/runtime/runtime_sandbox.cpp:110-160 | pushes exactly the whole program, and refuses it only when it is too long for a filter |
| RuntimeSandbox.ProgramMeansPolicy | src/runtime/runtime_sandbox.cpp:50-160 | for every policy and every record, interpreting the program ends without a fault and returns 0x7fff0000, allow, exactly when the policy allows the call, and 0x80000000, kill, otherwise |
| RuntimeSandbox.ProgramIsWellFormed | src/runtime/runtime_sandbox.cpp:50-160 | every jump, reachable or not, lands inside the program, other instructions have no jump offsets, every load is of a word of the record, and the last instruction returns |
| RuntimeSandbox.RulesAreIndependent | src/runtime/runtime_sandbox.cpp:110-160 | when the restricted calls are distinct and not on the allow-list, the policy is the plain disjunction of its rules, stated on the words of the record by index |
| RuntimeSandbox.FlagIsBit | src/runtime/runtime_sandbox.cpp:69-80 | a forbidden flag of one bit lets through exactly the words with that bit clear |
| RuntimeSandbox.FlagsTogether | src/runtime/runtime_sandbox.cpp:110-140 | flags joined with or are forbidden each for itself |
| Game2048Line.CollapseLine | apps/game-2048/game_2048_model.cpp:13-34 | the two passes over a line compute its collapse, its score, the mask of merged cells and whether it changed |
| Game2048Line.MaskMarksMerges | apps/game-2048/game_2048_model.cpp:22-31 | bit k of the merge mask is set if and only if two motions of the line land in cell k |
| Game2048Line.CollapseFixesSettled | apps/game-2048/game_2048_model.cpp:13-34 | a line is left alone if and only if its tiles are packed at the front and no two neighbours match |
| Game2048Line.ChangedLineHasRoom | apps/game-2048/game_2048_model.cpp:13-34 | a line that changes ends in an empty cell |
| Game2048Line.LandingMakesTile | apps/game-2048/game_2048_model.cpp:110-130 | for any tiles: what the motion loop sends to a cell makes the tile the merging pass puts there |
| Game2048Board.CellsAreNumbered | apps/game-2048/game_2048_model.cpp:36-46 | in every direction lines and offsets number the sixteen cells one to one |
| Game2048Board.PhaseForBoard | apps/game-2048/game_2048_model.cpp:155-172 | the static cell-by-cell test computes the phase |
| Game2048Board.LostMeansStuck | apps/game-2048/game_2048_model.cpp:155-172 | the phase is lost if and only if the board has a tile, none has reached 2048, and no move in any of the four directions changes anything |
| Game2048Board.ChangedBoardHasGap | apps/game-2048/game_2048_model.cpp:58-74 | every move that changes the board leaves an empty cell, so the spawn always succeeds |
| Game2048Motions.MotionListExplainsMove | apps/game-2048/game_2048_model.cpp:106-131 | exactly one motion leaves every tile and none an empty cell; a cell receives two motions exactly for a merge; replaying them gives the board the collapse computes; sixteen entries suffice |
| Game2048.Game.Random | apps/game-2048/game_2048_model.cpp:48-56 | the generator's three shifts and the multiplication, in place |
| Game2048.Game.Spawn | apps/game-2048/game_2048_model.cpp:58-74 | picks an empty cell and a two or a four from two random numbers, and fails only on a full board |
| Game2048Rules.SpawnMeans | apps/game-2048/game_2048_model.cpp:58-74 | the new tile fills the gap whose number is the first random number modulo the number of gaps, and is a 4 if the second is a multiple of ten and else a 2 |
| Game2048Rules.GeneratorSample | apps/game-2048/game_2048_model.cpp:48-56 | two steps of the xorshift64* generator and one value of it, as numbers |
| Game2048.Game.Slide | apps/game-2048/game_2048_model.cpp:91-131 | the nested loops of a move compute the moved board, the motion list and the score of all lines |
| Game2048.Game.Move | apps/game-2048/game_2048_model.cpp:86-142 | the state and the outcome after a move, lost games and unchanged boards included, with the 32-bit score |
| Game2048Rules.MoveMeans | apps/game-2048/game_2048_model.cpp:86-140 | what any move makes of any state, by the rules: a lost game stays; a move without effect scores nothing and keeps the board; any other adds one tile, scores modulo 2^32, keeps the larger best score, judges the new board and remembers the old game |
| Game2048Rules.DirectionsMean | apps/game-2048/game_2048_model.cpp:36-46 | left and right collapse rows, up and down columns, each towards the side named |
| Game2048Rules.PhaseMeans | apps/game-2048/game_2048_model.cpp:155-172 | won exactly with a tile of 2048 or more; lost exactly when the board is full below that and no neighbours are equal |
| Game2048Rules.UnchangedScoresNothing | apps/game-2048/game_2048_model.cpp:86-140 | a move that leaves the board alone merges nothing and scores nothing |
| Game2048.Game.Reset | apps/game-2048/game_2048_model.cpp:76-84 | the state after a reset |
| Game2048Rules.ResetMeans | apps/game-2048/game_2048_model.cpp:76-84 | a new game has two tiles put on an empty board one after the other, no score, the best score of before, and nothing to take back |
| Game2048.Game.Undo | apps/game-2048/game_2048_model.cpp:144-153 | the state after an undo, and whether there was one |
| Game2048.Game.Restore | apps/game-2048/game_2048_model.cpp:192-208 | accepts exactly the restorable states and then holds the state given, otherwise changes nothing |
| Game2048.Game.SetBestScore | apps/game-2048/game_2048_model.cpp:210-213 | replaces the best score by the larger of the value and the score |
| Game2048.Game.constructor | apps/game-2048/game_2048_model.cpp:8-11 | the state of a new game, for every seed |
| Game2048Runs.ValidTileIsPower | apps/game-2048/game_2048_model.cpp:174-179 | the bit test accepts exactly zero and the powers of two from two on |
| Game2048Runs.RandomStaysNonZero | apps/game-2048/game_2048_model.cpp:48-56 | the generator never reaches zero, where it would stay and saves would be refused |
| Game2048Runs.MovedKeepsValid | apps/game-2048/game_2048_model.cpp:13-46 | moving a valid board in any direction gives a valid board, saturation at 32768 included |
| Game2048Runs.StartIsRestorable | apps/game-2048/game_2048_model.cpp:8-11 | every new game can be restored |
| Game2048Runs.RestorableIsInvariant | apps/game-2048/game_2048_model.cpp:192-213 | what restoring demands is kept by every operation, except that setting a best score keeps it if and only if the new best is not below the score kept for undo |
| Game2048Runs.LoweredBestIsRefused | apps/game-2048/game_2048_model.cpp:210-213 | the exception occurs: lowering the best to zero right after resetting a game whose undo record has points gives a state that cannot be restored |
| Game2048Runs.UndoThenRedo | apps/game-2048/game_2048_model.cpp:86-153 | undo gives back board, score, phase and generator, and the same move again gives the same state and outcome: board, score, motions and spawn |
| Game2048Runs.PhiOfPower | apps/game-2048/game_2048_model.cpp:13-34 | the worth of a tile 2^k is (k - 1) * 2^k |
| Game2048Runs.MergeScores | apps/game-2048/game_2048_model.cpp:22-31 | merging any list of tiles scores exactly what it adds to their worth, plus a fixed surplus for every saturated merge |
| Game2048Runs.WorthByLines | apps/game-2048/game_2048_model.cpp:36-46 | adding up a board by its lines gives its worth, whichever way the lines run |
| Game2048Runs.MoveScores | apps/game-2048/game_2048_model.cpp:91-104 | a move scores what it adds to the worth of the board |
| Game2048Runs.RunStaysRestorable | apps/game-2048/game_2048_model.cpp:76-213 | every state reached by any run of resets, moves, undos, restores and best scores not below the score kept for undo can be restored |
| Game2048Runs.RunKeeps | apps/game-2048/game_2048_model.cpp:76-213 | at every point of every game, games resumed from a save with its ledger included, the score is the worth of the board with the fours that appeared taken off and the surplus of saturation added, in 32-bit arithmetic, and so is the score kept for undo; and the state is restorable |
| Game2048Runs.ScorePotential | apps/game-2048/game_2048_model.cpp:86-142 | at every point of every game, resumed games included, in which no two tiles of 32768 have met, score + 4 * fours = worth of the board, so the score stays below 16 * 14 * 32768 and has never wrapped |
| Crc.ComputeCrc | apps/game-2048/game_2048_persistence.cpp:33-45 | the byte and bit loops with the sign-extended mask compute the polynomial division |
| Crc.CrcSeesOneByte | apps/game-2048/game_2048_persistence.cpp:33-45 | strings of one length that differ in exactly one byte have different checksums |
| Crc.CrcCheckValue | apps/game-2048/game_2048_persistence.cpp:33-45 | the published check value of this CRC: the digits one to nine give cbf43926 |
| GamePersistence.EncodeGameState | apps/game-2048/game_2048_persistence.cpp:63-82 | writes a byte string that decodes to the state, and no other byte string does |
| GamePersistence.DecodeGameState | apps/game-2048/game_2048_persistence.cpp:84-110 | the reading loops compute the decoder's specification |
| GamePersistence.LaidIsRead | apps/game-2048/game_2048_persistence.cpp:84-110 | a byte string decodes to a state if and only if it holds every field at its offset under a valid checksum |
| GamePersistence.LaidUnique | apps/game-2048/game_2048_persistence.cpp:63-82 | only one byte string holds a given state |
| GamePersistence.SavedFormat | apps/game-2048/game_2048_persistence.cpp:63-110 | in literal bytes and offsets: exactly which strings decode to which state |
| GamePersistence.LoadGameState | apps/game-2048/game_2048_persistence.cpp:112-118 | loading succeeds exactly when the bytes decode to a restorable state, which the game then holds; otherwise the game is unchanged |
| GamePersistence.SavedGameIsRestored | apps/game-2048/game_2048_persistence.cpp:112-124 | at any point of any game, one resumed from a save included, whatever decodes to its state restores it unchanged into any other game |
| GamePersistence.OneDamagedByteIsRefused | apps/game-2048/game_2048_persistence.cpp:84-95 | changing any single byte of an accepted save, wherever it is, makes it refused |
| ApplicationRegistry.CheckVersion | platform/src/session/application_registry.cpp:48-64 | the flag loop accepts exactly three groups of digits with two dots between them |
| ApplicationRegistry.EncodeApplicationRegistry | platform/src/session/application_registry.cpp:80-126 | the checking and the appending loop compute the specified bytes or the first error |
| ApplicationRegistry.DecodeApplicationRegistry | platform/src/session/application_registry.cpp:128-186 | the cursor loop computes the specified list or the first error |
| ApplicationRegistry.RecordIsRead | platform/src/session/application_registry.cpp:147-171 | a record is read off the input if and only if the input starts with the bytes of that valid application |
| ApplicationRegistry.RecordsAreRead | platform/src/session/application_registry.cpp:145-179 | a number of records is read if and only if the input is exactly the records of that many valid applications in strictly ascending order |
| ApplicationRegistry.EncodesExactlyRegistries | platform/src/session/application_registry.cpp:80-126 | the encoder accepts exactly the lists of one to 64 valid applications strictly ascending by identifier, and its size error cannot occur |
| ApplicationRegistry.EncodeErrorMeans | platform/src/session/application_registry.cpp:80-126 | which error is reported of a list that is no registry: its length, or the first application that is not valid or out of order |
| ApplicationRegistry.HeaderErrorMeans | platform/src/session/application_registry.cpp:128-145 | exactly which headers are refused for their layout and for their count |
| ApplicationRegistry.RecordErrorMeans | platform/src/session/application_registry.cpp:147-171 | exactly which records are cut off and which have wrong sizes or flags |
| ApplicationRegistry.RecordsErrorMeans | platform/src/session/application_registry.cpp:145-186 | after as many good records as there are, the next decides the error, and at the end nothing may be left |
| ApplicationRegistry.RegistryIsSmall | platform/src/session/application_registry.cpp:98-103 | every registry takes at most 13776 bytes |
| ApplicationRegistry.RegistryIsBijection | platform/src/session/application_registry.cpp:80-186 | a byte string decodes to a list if and only if the list is a registry and the string is its encoding |
| WireFormats.RegistryFormat | platform/src/session/application_registry.cpp:80-186 | in literal bytes: a string decodes to a list if and only if it holds one to 64 acceptable applications in ascending order and is this header followed by these records |
| WireFormats.VersionFormat | platform/src/session/application_registry.cpp:48-64 | a version has a dot at two places, digits at all others, and none of the three groups is empty |
| TouchProtocol.EncodeTouchFrame | platform/src/ipc/touch_protocol.cpp:65-81 | the field writes compute the 56 specified bytes |
| TouchProtocol.DecodeTouchFrame | platform/src/ipc/touch_protocol.cpp:83-108 | the reads and checks compute the decoder's specification |
| TouchProtocol.FrameIsBijection | platform/src/ipc/touch_protocol.cpp:45-108 | for every screen, a datagram decodes to a frame if and only if the frame is valid there and the datagram is its encoding |
| WireFormats.TouchFormat | platform/src/ipc/touch_protocol.cpp:45-108 | in literal bytes: a datagram decodes to a frame if and only if the fields are in range, each range written out, and the datagram is these 56 bytes |
| TouchProtocol.BitsAreIndependent | platform/src/ipc/touch_protocol.cpp:126-145 | setting or clearing the bit of one contact does that and leaves the other contacts alone |
| TouchProtocol.SequenceGuard.Accept | platform/src/ipc/touch_protocol.cpp:110-118 | the guard's answer and its state after every frame |
| TouchProtocol.ContactGuard.Accept | platform/src/ipc/touch_protocol.cpp:126-145 | the guard's answer and its mask after every frame; `TouchCompleteness.RoutedExactly` says which frames that lets through |
| TouchRouter.Router.Route | platform/src/session/touch_router.cpp:13-31 | decoding, freshness and both guards in order, with the outcome, the frame returned even with a refusal, and the state after any datagram |
| TouchRouter.RoutedStreamIsWellFormed | platform/src/session/touch_router.cpp:13-31 | for every sequence of datagrams, lost, repeated, reordered or arbitrary: routed frames are valid, carry the session nonce and strictly increasing sequence numbers, each contact's phases are a start, moves, an end or cancel over and over, and the mask holds exactly the contacts that are down |
| TouchRouter.RoutedIsFresh | platform/src/ipc/touch_protocol.cpp:54-63 | what is routed is the encoding of its frame and at most two seconds old or a tenth of a second ahead |
| TouchCompleteness.RoutedExactly | platform/src/session/touch_router.cpp:13-31 | after any datagrams, a datagram is routed as a frame if and only if it is its encoding, the frame fits the screen, is timely, carries the session and a sequence above all accepted, and continues its contact's strokes; otherwise the reason is the first of these that fails |
| TouchCompleteness.WholeIsRouted | platform/src/session/touch_router.cpp:13-31 | a stream that arrives whole, in time and in strokes is routed whole |
| TouchCompleteness.LauncherIsRouted | launcher/native/src/Launcher/Launcher.cpp:291-353 | in particular whatever a launcher sends in one session |
| SessionStatus.EncodeSessionStatus | platform/src/session/session_status.cpp:21-43 | appends the eight lines of a document, and writes nothing for one that may not be published |
| SessionStatus.ParseStatus | launcher/native/src/Launcher/Launcher.cpp:81-94 | the line loop computes the specified values: trimmed lines, split at the first equals sign, the first value of a key |
| SessionStatus.LineMeans | launcher/native/src/Launcher/Launcher.cpp:81-94 | what a line adds: its key and value, once, within 32 and 128 bytes, a final carriage return dropped |
| SessionStatus.TextIsRead | launcher/native/src/Launcher/Launcher.cpp:81-94 | any text of plain fields is read as those fields, each key with its first value |
| SessionStatus.StatusIsRead | launcher/native/src/Launcher/Launcher.cpp:146-186 | what the daemon publishes is what the launcher reads, for every document: process, nonce, readiness and screen |
| SessionStatus.StatusIsSmall | launcher/native/src/Launcher/Launcher.cpp:61-79 | and every such text is short enough to be read |
| TouchLauncher.PublishedSessionIsJoined | launcher/native/src/Launcher/Launcher.cpp:146-186 | a launcher that reads a published document takes over its nonce, and its input is ready if and only if the daemon says so and the screens are the same |
| TouchLauncher.Launcher.ValidateRelease | launcher/native/src/Launcher/Launcher.cpp:188-206 | takes the screen from the profile's text, or none when it certifies none |
| TouchLauncher.Launcher.ReadStatus | launcher/native/src/Launcher/Launcher.cpp:146-186 | parses the status text: a nonce not seen last time starts the sequence over; an invalid or dead session changes nothing; input is ready only for a ready session whose screen is the launcher's |
| TouchLauncher.Launcher.SessionLaunched | launcher/native/src/Launcher/Launcher.cpp:281-283 | a launch forgets nonce and sequence |
| TouchLauncher.Launcher.SendTouch | launcher/native/src/Launcher/Launcher.cpp:291-353 | puts exactly the encoding of the request's frame on the channel, or nothing, counts only such frames, and reports whether the channel took it |
| TouchLauncher.SendsExactly | launcher/native/src/Launcher/Launcher.cpp:291-353 | when a touch is sent and as which frame, every condition and field written out |
| TouchLauncher.SentDecodesToRequest | launcher/native/src/Launcher/Launcher.cpp:337-348 | a sent frame decodes to its request, under the session's nonce and the next sequence number |
| TouchLauncher.StreamAscends | launcher/native/src/Launcher/Launcher.cpp:291-353 | as long as the nonce stays and its session names one screen, the frames sent are valid there and strictly ascending |
| TouchLauncher.StreamIsNumbered | launcher/native/src/Launcher/Launcher.cpp:291-353 | frames sent under one nonce are numbered without gaps from where the sequence stood |
| TouchLauncher.LauncherIsHeard | launcher/native/src/Launcher/Launcher.cpp:337-348 | if any part of them arrives in order, the router decodes each to the frame sent and its sequence guard refuses none |
| TouchLauncher.RelaunchStartsOver | launcher/native/src/Launcher/Launcher.cpp:281-284 | after a relaunch that finds the old nonce the frames sent are numbered from one again, and a router that has seen `last` of them refuses the k-th as replayed if and only if k is at most `last` |
| StorageProtocol.RequestIsBijection | platform/src/ipc/storage_protocol.cpp:119-167 | requests and accepted byte strings correspond one to one |
| StorageProtocol.ResponseIsBijection | platform/src/ipc/storage_protocol.cpp:169-206 | responses and accepted byte strings correspond one to one |
| StorageProtocol.EncodeStorageRequest | platform/src/ipc/storage_protocol.cpp:119-138 | the encoder writes the specified packet exactly for valid requests, and nothing otherwise |
| StorageProtocol.EncodeStorageResponse | platform/src/ipc/storage_protocol.cpp:169-183 | the same for responses |
| StorageProtocol.CheckName | platform/src/ipc/storage_protocol.cpp:88-99 | the checks accept exactly the declared record names |
| WireFormats.NameFormat | platform/src/ipc/storage_protocol.cpp:88-99 | record names in character codes |
| WireFormats.StorageRequestFormat | platform/src/ipc/storage_protocol.cpp:119-167 | in literal bytes: exactly which strings decode to which request; a read carries no data, a write at least one byte and no more than the room it names |
| WireFormats.StorageResponseFormat | platform/src/ipc/storage_protocol.cpp:169-206 | in literal bytes: exactly which strings decode to which response; only a successful read returns data |
| StorageBroker.TemporariesAreNoRecords | platform/src/session/session_daemon.cpp:226-239 | no temporary name is a record name, and the names the broker generates are recognised as temporary |
| StorageBroker.Broker.ScanStorage | platform/src/session/session_daemon.cpp:241-278 | the directory loop: what it deletes, counts and refuses, for every order of the entries, and how far it leaves the descriptor read |
| StorageBroker.Broker.WriteRecord | platform/src/session/session_daemon.cpp:332-372 | a write in place, with the status, what is visible and what power loss may leave, for every point of failure or power loss: every unlink, create and rename, and the syncs that make them durable |
| StorageBroker.Broker.ReadRecord | platform/src/session/session_daemon.cpp:300-330 | a read with its loop over partial and interrupted reads, with its status and data |
| StorageBroker.ScanKeepsRecords | platform/src/session/session_daemon.cpp:241-278 | scanning deletes leftovers and nothing else, however it ends and whatever power loss leaves of it |
| StorageBroker.ScanMeansRecords | platform/src/session/session_daemon.cpp:241-278 | a scan that succeeds has counted the proper records it listed; from the start of the directory those are all and exactly they are left, and at its end, where every later scan of a session starts, there are none |
| StorageBroker.TotalWithout | platform/src/session/session_daemon.cpp:258-275 | the total size does not depend on the order of counting |
| StorageBroker.QuotaTestIsExact | platform/src/ipc/storage_protocol.cpp:101-117 | with the true usage the quota test admits a write if and only if the directory with the record written is within the limits |
| StorageBroker.WriteIsAtomic | platform/src/session/session_daemon.cpp:332-372 | whatever happens in a write, at any point of a session, and whatever power loss leaves of it, the records stay as they were or the one record is replaced as a whole; after ok it is replaced for good, and a first request leaves no leftover; a refused write changes no record |
| StorageBroker.FlawlessWrite | platform/src/session/session_daemon.cpp:332-372 | what a write answers in which nothing goes wrong: the first of a session is admitted if and only if it fits the limits; every later one if and only if the record is not there and fits by itself |
| StorageBroker.GuardExactly | platform/src/session/session_daemon.cpp:332-372 | such a write keeps a store within its limits if and only if it is the first request since the directory was opened, or it fits, or it cannot be admitted |
| StorageRuns.QuotaHolds | platform/src/session/session_daemon.cpp:332-403 | over every run of sessions in which each write is guarded in that way, the records that are visible and those power loss may leave stay proper and within the number and size allowed |
| StorageRuns.OpeningFirstIsGuarded | platform/src/session/session_daemon.cpp:193-217 | opening the directory before every write guards them all |
| StorageRuns.UnguardedWriteExceeds | platform/src/session/session_daemon.cpp:332-403 | and nothing less will do: at any point of a run, a write in which nothing goes wrong stays within the limits if and only if it is guarded |
| StorageRuns.LaterWrites | platform/src/session/session_daemon.cpp:241-278 | the inputs that show it: in a session that has made a request, a full store admits one more record, and a record that is there is refused whatever the limits are |
| StorageRuns.TwoRecordsWhereOneFits | platform/src/session/session_daemon.cpp:332-403 | from an empty store with room for one record, a session writes two |
| StorageRuns.RecordsStayProper | platform/src/session/session_daemon.cpp:332-403 | over every run of sessions, whatever is admitted, every record stays proper |
| StorageRuns.RecordsAreWhole | platform/src/session/session_daemon.cpp:332-372 | whatever power loss leaves, a record holds something it might have held before or the complete data of one of the writes to it, and a record that was there for sure never disappears |
| StorageRuns.SurelyThereExactly | platform/src/session/session_daemon.cpp:241-372 | over every run from a settled directory, a record outlives every power loss if and only if it was there at the start or some event since made it sure: a write that answered ok, a scan that deleted a leftover and synced, a power loss that left it |
| StorageRuns.WriteMakesSure | platform/src/session/session_daemon.cpp:332-372 | after one write a record outlives every power loss if and only if it did before, or was there or is the one written and the answer is ok, or was there and the scan swept; on a settled directory, if and only if it was there or is the one written and the answer is ok |
| StorageRuns.UnsyncedRecordMayVanish | platform/src/session/session_daemon.cpp:359-370 | the input that shows it: a new record whose last sync fails is reported as an error, can be read, and may vanish at power loss |
| StorageRuns.AcknowledgedStays | platform/src/session/session_daemon.cpp:332-372 | after ok, until the next write to the record, in this session and in later ones, everything visible and everything power loss may leave holds the data written, whatever else happens |
| StorageBroker.HealthyScanSucceeds | platform/src/session/session_daemon.cpp:241-278 | on a directory within its limits a scan fails only if something outside the directory does, wherever it starts, and what it counts is within them |
| StorageRuns.ReadsBackWhatWasAcknowledged | platform/src/session/session_daemon.cpp:300-330 | a healthy read gives back exactly the acknowledged data, with any events and power losses in between, as long as the records are within the limits or the session has read the directory to its end; beyond the limits the first request of a session reports a corrupt store |
| SessionControl.EncodeSessionControl | platform/src/session/session_control.cpp:57-75 | the field writes compute the 128 specified bytes |
| SessionControl.DecodeSessionControl | platform/src/session/session_control.cpp:77-106 | the reads, the padding loop and the checks compute the decoder's specification |
| SessionControl.MessageIsBijection | platform/src/session/session_control.cpp:57-106 | valid messages and accepted byte strings correspond one to one |
| SessionControl.EveryMessage | platform/src/session/session_control.cpp:57-106 | what becomes of any message: refused, stripped of a stray application, or unchanged, the last exactly when it is valid |
| WireFormats.SessionFormat | platform/src/session/session_control.cpp:57-106 | in literal bytes: exactly which strings decode to which message; a launch names an application, the other three commands none |
| InstallerProtocol.EncodeInstallerRequest | platform/src/ipc/installer_protocol.cpp:145-163 | writes the specified 160 bytes, zeros for a request it refuses |
| InstallerProtocol.RequestIsBijection | platform/src/ipc/installer_protocol.cpp:145-191 | valid requests and accepted byte strings correspond one to one |
| InstallerProtocol.RefusedIsNotDecoded | platform/src/ipc/installer_protocol.cpp:145-191 | the zeros written for a refused request are not accepted |
| InstallerProtocol.EncodeInstallerResponse | platform/src/ipc/installer_protocol.cpp:193-257 | writes the specified 768 bytes, zeros for a response it refuses |
| InstallerProtocol.ResponseRoundTrip | platform/src/ipc/installer_protocol.cpp:193-333 | every valid response decodes to itself with its detail also inside the candidate, so it comes back unchanged if and only if the details agreed |
| InstallerProtocol.ResponseIsCanonical | platform/src/ipc/installer_protocol.cpp:259-333 | every accepted byte string is the encoding of the valid response it decodes to |
| WireFormats.InstallerRequestFormat | platform/src/ipc/installer_protocol.cpp:145-191 | in literal bytes: exactly which strings decode to which request, and which commands have an index or a token |
| WireFormats.CandidateFormat | platform/src/ipc/installer_protocol.cpp:193-333 | in literal bytes: exactly which strings decode to which ready answer about a release that may be installed |
| WireFormats.InstalledFormat | platform/src/ipc/installer_protocol.cpp:193-333 | in literal bytes: exactly which strings decode to which ready answer about an installed release, with the three flags and what they allow |
| WireFormats.AnswerFormat | platform/src/ipc/installer_protocol.cpp:193-333 | in literal bytes: exactly which strings decode to which other answer |
| Rotation.InverseUndoesRotation | platform/src/profile/device_profile.cpp:106-148 | for every rotation and every point, touching where a point is shown gives back the point, clamped to the screen |
| Rotation.RotationUndoesInverse | platform/src/profile/device_profile.cpp:106-148 | showing what was touched gives back the place touched if and only if the rotated screen covers it |
| Rotation.CoordinatesAreSmall | platform/src/profile/device_profile.cpp:56-104 | within the limits of a profile no coordinate leaves 16 bits, so 32-bit arithmetic cannot overflow |
| Rotation.LimitsMean | platform/src/profile/device_profile.cpp:56-104 | the limits themselves: sizes from one to 8192, offsets within 8192, quarter turns |
| Rotation.CheckCorners | platform/src/profile/device_profile.cpp:227-241 | the check of four corners succeeds if and only if every point of the screen is shown inside the physical screen |
| Rotation.PanelMapsAreRotations | src/platform/device_profile/device_profile.cpp:34-51 | the built-in device's two maps are the general ones turned by 270 degrees |
| Rotation.TouchFindsPoint | src/platform/device_profile/device_profile.cpp:34-51 | a touch on a shown point finds it, off by the difference of the two offsets, up to the edge |
| Rotation.PixelIsShownAtItsRotation | src/platform/drm/drm_backend.cpp:438-455 | in a completely copied buffer pixel (x, y) is at its rotation |
| Rotation.RotationIsInjective | src/platform/drm/drm_backend.cpp:438-455 | no two pixels share a cell, so no write overwrites another |
| Rotation.PresentOverlay | src/platform/drm/drm_backend.cpp:434-455 | for all four rotations and all sizes, the copy loops fill the buffer completely: every cell shows the pixel whose rotation it is, or zero |
| Rotation.PresentPanel | src/platform/drm/drm_backend.cpp:434-475 | the same for the loops of the built-in panel with its offset |

## Left out

- Ownership, permission and link-count checks, descriptors and trusted-directory walks: a directory entry is either what the broker and the stores expect or `Foreign`, and an untrusted store root is one outcome of opening it.
- StoreRuns.StoreRefinesLifecycle: leaves out runs in which a load takes an older state for the one that is there; `StoreRuns.BlindCommitLoses` shows why.
- Changes to one directory are taken to reach the disk in the order in which they were made, and each of them whole; a file system that reorders unsynced renames within a directory is not part of this model.
- The directories above an application's own, as `apps`, are taken to be durable once they exist, except that a newly created application directory may be lost until they are synced.
- Removal of payloads and recursive directory deletion, and the tombstones that go with it.
- Staging.PayloadStore.CreateFile: treats `.` and `..` inside a path as ordinary names, where the source would follow them; no path that passes verification holds one.
- Signature envelope and key lookup: a package's verification is a function of its bytes, of which the installer uses what `PackageLayout.VerifiedPaths` proves, that paths are acceptable.
- Fields of the manifest: a manifest reader says which files a JSON value lists; `PackageLayout` proves that the value and its text are in bijection.
- RapidJSON: a parser is any function from texts to values; printing starts from a JSON value, with every number the parser does not hold as an integer refused, as the printer does.
- PackageInstaller.Device.VerifyRelease: reads the package copy in one step; the size limit of that read is the verifier's own.
- Syscall and flag numbers of the seccomp filter are parameters of the policy; more than 125 DRM requests would not fit the jump offsets, and the fixed list of the source is far shorter.
- The upper half of 64-bit arguments in seccomp records is not looked at by the program, and the policy is stated over the low words it loads.
- TouchLauncher.Launcher.ReadStatus: takes the text that was read and the check of the process as its arguments; the process the launcher itself has started is not followed.
- StorageBroker.Broker.ScanStorage: once a descriptor has been read to its end nothing more is listed through it, as on the platform's file system; POSIX leaves open whether later entries would be.
- Rotation.PresentOverlay: does not model 32-bit wrap-around of the pixel index; the buffer is required to have room for the rotated screen, as the driver's allocation provides.
- Profile parsing other than the corner check, profile selection, DRM mode setting and page flips.
- Focus timer, runtime metrics, user interface, shell and probe tools.
