# KeepPeek in Dafny

A model of the parts of KeepPeek whose correctness is hardest to see by reading: the
storage migration, the handling of secret references and the two configuration files,
the profile-identity migration, the runtime-profile revision fence, the credential
catalog and failure limiter, the proxy walk, the ISAPI delivery queue, the battery wake
registry, the camera index, and tick arithmetic. `dafny verify dfyconfig.toml` checks all
of it.

Code that updates things step by step is modelled as classes and methods with loops, each
proved against a specification; code made of expressions is modelled as functions. The
laws the system promises are lemmas over every input, every run or every crash point.

| file | models |
|---|---|
| `NameOrder.dfy` | the order of file names and map keys |
| `StorageTree.dfy` | the tree a migration works on, the tree it must end with, and why no single filesystem step changes that goal |
| `StorageMove.dfy` | the recursive move itself, on a disk that records every state a crash could expose |
| `SecretTemplate.dfy` | `{secret:KEY}` and `{secret:KEY\|url}` references, the resolver loop, percent encoding |
| `ConfigTree.dfy` | configuration values, the reference-preserving update and the merge on load |
| `SecretCommit.dfy` | the two-file commit of a configuration and its managed secrets |
| `Profiles.dfy` | profile registries, their validation and policy resolution |
| `ProfileIdentity.dfy`, `ProfileMigration.dfy` | the index from addresses to camera identities and the one-time rewrite of profile targets |
| `RuntimeFence.dfy` | the camera loop and the server sharing one revisioned status |
| `AccessCatalog.dfy` | credential operations, commit or rollback, and authentication |
| `FailureLimiter.dfy` | the per-address window table of failed authentications |
| `ForwardingWalk.dfy` | client classification from the proxy chain |
| `DeliveryQueue.dfy` | retained transitions against a bounded channel |
| `WakeRegistry.dfy` | lazily expiring camera registrations |
| `CameraIndex.dfy` | catalogue indexes and lookup |
| `MediaTime.dfy` | ticks to durations and back |

## Assumptions

- Replacing a private file is one atomic step that succeeds or fails. A rename, a
  directory creation and the removal of one entry are atomic too; a copy is not, and is
  exposed byte by byte.
- A crash means that the process stops. The migration does not force its writes to the
  medium, so nothing is said about a loss of power.
- `Route.renames` fixes for each source file whether a direct rename works.
- The server, the other writer of the runtime-profile status, only raises its revision.
- Clocks used by the limiter, the catalog and the wake registry do not go back.
- A worker is told to stop at some time; without that its loop need not end.
- Identities and keys given to new credentials are fresh. Drawn camera identities are UUID text;
  the three draws and their failure are modelled.
- Address parsing and printing, text normalisation and key verifiers are parameters. All
  that is assumed: text that parses as an address has the shape of one
  (`AddressesLookLikeAddresses`), and normalised text never holds U+001F (`Clean`).
- Identities already stored on cameras are UUID text, as the reader of that field checks.

## Where the code and the expectation differ

- A file that has to be copied can overrun another one named like its pending copy. Under
  `NoClash` every crash point of a whole run is safe. The states of one copy are safe exactly
  when its pending path is clear or what it puts there goes unnoticed (`CopySafeExact`), which
  for files of two bytes or more is `NoClash` (`NoClashExact`). In a directory of files,
  every state of the run is safe exactly when no two names clash, and exactly those files are
  lost whose name is the pending name of a later file that is copied (`Disk.MoveFiles`);
  `PendingClashExample` is such a directory.
- Event workers are not fenced: a change of a camera's event settings alone replaces them even
  while a newer revision is pending (`KeepPeekLoop.RestartCamera`), and nothing else does
  (`EventsChangeByRestart`). Worker groups are fenced (`NoStartWhileSuperseded`).
- A credential at the largest revision can become active again under the same revision:
  `SaturatedRevisionRevives`. Below it, never: `InactiveForever`. The file format holds
  revisions up to 2^63 - 1 only, so this concerns a manager without a file.
- Tick round trips fail for some timescales above 500,000,001: `ExactTimescales` says for
  which.
- The merge on load keeps a value that holds a reference whole unless both sides are tables,
  so a new value further down is not taken: `MergeTakesNew` says exactly when.
- The managed-secret cleanup makes the new configuration unresolvable exactly when a section
  that is resolved names a managed key that is neither among the new values nor overridden,
  and leaves a key of any section without a secret exactly when it is not supplied:
  `CleanupResolves`. Validation resolves all sections but five, among them `notifications`,
  where the managed references are; for those the presence of every named key is stated, and
  that the caller supplies them is its condition (`Supplied`).
- "At most `limit` per window" holds for the limiter's own windows (`WindowCap`); in an
  arbitrary interval of that length up to twice the limit less one fit (`IntervalCap`),
  and that bound is met (`IntervalCapTight`).

## Model

| member | source | states |
|---|---|---|
| `StorageTree.GoalIsCrashSafe` | src/config.rs:2501-2593 | in any state with the same goal, every entry that is not retained is whole at its source or its destination, and its destination holds that entry, what was there before, or nothing |
| `StorageTree.MakeAncestor` | src/config.rs:2501-2539 | creating one missing directory above the destination keeps the invariant and the goal |
| `StorageTree.AddDestination` | src/config.rs:2563-2593 | a source entry appearing at its destination keeps the invariant and the goal |
| `StorageTree.RemoveSource` | src/config.rs:2563-2593 | removing a source entry already at its destination keeps the invariant and the goal |
| `StorageTree.TouchPending` | src/config.rs:2582-2601 | whatever happens at or below the pending path of a file still to be copied keeps the invariant and the goal |
| `StorageTree.FinishedIsGoal` | src/config.rs:2501-2593 | a tree with nothing movable left is its own goal |
| `StorageTree.ReplayAgrees` | src/config.rs:2501-2593 | finished trees that steps lead to from one start, by way of a crash or not, are the same tree, the goal of the start |
| `StorageTree.StaysUnobstructed` | src/config.rs:2563-2581 | no step of a migration creates a conflict that was not there |
| `StorageMove.FilesEqual` | src/config.rs:2603-2625 | the buffered comparison is equality of contents |
| `StorageMove.Disk.RemoveTree` | src/config.rs:2655-2663 | everything at or below the path is gone, nothing else changed in any intermediate state |
| `StorageMove.Disk.CopyFile` | src/config.rs:2627-2653 | the copy ends whole; every partial state differs only at the pending path |
| `StorageMove.Disk.MoveFile` | src/config.rs:2582-2592 | the file is at its destination only, and every intermediate state keeps the goal |
| `StorageMove.Disk.CreateDirAll` | src/config.rs:2501-2539 | the directories exist, nothing else changed, every state keeps the goal, and it succeeds unless a file is in the way |
| `StorageMove.Disk.MovePath` | src/config.rs:2563-2593 | every state keeps the goal, entries outside are untouched, success leaves nothing movable below, and it succeeds unless a destination conflicts |
| `StorageMove.Disk.MoveDirectoryContents` | src/config.rs:2501-2539 | as above for a directory, with entries in name order; lock files and retained entries stay with all below them, in every state |
| `StorageMove.Disk.MoveEntries` | src/config.rs:2514-2529 | the entry loop finishes every entry but lock files and retained ones, and reports whether something had to stay |
| `StorageMove.Disk.MoveStoragePath` | src/config.rs:2541-2551 | every state of the disk, the last one included, is a step from the start and safe, also when the run fails; in every state, an entry below the source named `*.authority.lock` or retained is where it was, with all below it and its directory; success reaches the goal tree, in which every other entry has left the source for its destination; without conflicting data it succeeds; a run on a finished tree passes through no other state |
| `StorageMove.KeptIsPinned` | src/config.rs:2514-2525 | what is left behind is exactly what lies at or below an entry named `*.authority.lock` or a retained one |
| `StorageMove.Replay` | src/config.rs:2501-2593 | stopped at any state a step can leave and started again, an unobstructed migration succeeds and ends with the tree of an uninterrupted run, which is the goal; every state on the way is safe, and a third run passes through no other state |
| `StorageMove.CopySafeExact` | src/config.rs:2582-2601 | the states of a copy begun from a tree are safe if and only if the pending path is clear, or all it ever holds is what belongs there or was there, which takes a file of at most one byte |
| `StorageMove.NoClashExact` | src/config.rs:2582-2601 | so `NoClash` holds if and only if no copy begun from the tree exposes an unsafe state, when the files to be copied have two bytes or more |
| `StorageMove.Disk.MoveFiles` | src/config.rs:2512-2529 | a directory of files in listed order: a file is lost if and only if it is named like the pending copy of a later file that cannot be renamed; all others arrive whole; every state on the way is safe if and only if no two names clash |
| `StorageMove.PendingClashLosesData` | src/config.rs:2595-2601 | for a name that begins after `.` the pending name sorts first, so copying it overruns a file of that name |
| `StorageMove.PendingClashExample` | src/config.rs:2582-2592 | a concrete directory in which that happens |
| `SecretTemplate.EncodeUrlComponent` | src/config.rs:1272-1286 | the encoder loop yields the percent encoding of the UTF-8 bytes |
| `SecretTemplate.PercentRoundTrip` | src/config.rs:1272-1286 | the output holds the unreserved characters (section 2.3 of RFC 3986) as they are and all else as `%HH`, decodes to the UTF-8 bytes of the secret, and those decode to the secret |
| `SecretTemplate.ResolveSecretReferences` | src/config.rs:1234-1270 | the cursor loop computes the resolver function, errors included, and terminates |
| `SecretTemplate.ResolvesTemplate` | src/config.rs:1234-1270 | resolving a printed template evaluates it: secret text goes in once and is never rescanned |
| `SecretTemplate.ResolveIsEvaluate` | src/config.rs:1234-1270 | text resolves to `out` if and only if it prints a normal template that evaluates to `out` |
| `SecretTemplate.ReferenceMeans` | src/config.rs:1234-1270 | a text with a `{secret:…}` reference: an override wins over the file, the modifier is applied, the rest is resolved; or the first error from the left, each under its own condition |
| `SecretTemplate.UnclosedFails` | src/config.rs:1241-1246 | a reference that is not closed is malformed, whatever its key |
| `SecretTemplate.ResolvesWhenFound` | src/config.rs:1234-1270 | text that resolves with one vault resolves with another if and only if every key it names is found there |
| `ConfigTree.PreserveAt` | src/config.rs:2869-2901 | at every path of the new value: the old reference where it already resolved to the new text, the new leaf otherwise, new array lengths, and no table keys but the old and the new |
| `ConfigTree.PreserveKeeps` | src/config.rs:2869-2901 | keys of an old table that the new one does not mention are untouched at any depth |
| `ConfigTree.PreserveFails` | src/config.rs:2869-2901 | the update fails if and only if new text would replace text with a `{secret:` reference that does not resolve |
| `ConfigTree.PreserveResolves` | src/config.rs:2869-2901 | for a new value without references, resolving the result gives the new text at every path, and matching old references stay raw |
| `ConfigTree.ResolveTreeAt` | src/config.rs:1305-1326 | resolving a tree keeps its shape and resolves the text at every path |
| `ConfigTree.PreserveAgrees` | src/config.rs:2869-2901 | when the stored result resolves as a whole, it agrees with the new value at every path of it |
| `ConfigTree.Merge` | src/config.rs:1980-1995 | the in-place merge computes the merged value |
| `ConfigTree.MergeKeepsReferences` | src/config.rs:1980-2004 | every string with a reference survives unchanged at its path |
| `ConfigTree.ReferencesAreInText` | src/config.rs:1997-2004 | a value counts as holding a reference exactly when some text in it has `{secret:` |
| `ConfigTree.MergeTakesNew` | src/config.rs:1980-2004 | at every path of the new value where the old one has nothing or no reference, the new value is taken, unless the old one is kept whole further up |
| `ConfigTree.MergeKeepsOld` | src/config.rs:1980-2004 | what only the old value has stays as it was if and only if that value held a reference where the two part ways, and goes otherwise |
| `ConfigTree.MergeIdempotent` | src/config.rs:1980-1995 | merging the same value twice equals merging it once |
| `SecretCommit.TreeResolvesWhenFound` | src/config.rs:1305-1326 | a tree that resolves with one vault resolves with another if and only if every key it names is found there |
| `SecretCommit.RuntimeSections` | src/config.rs:1915-1932 | validation resolves every section as it stands, save five |
| `SecretCommit.MoreSecretsResolve` | src/config.rs:1794-1846 | a tree that resolves keeps resolving, and its keys stay present, as long as no secret disappears |
| `SecretCommit.CleanupResolves` | src/config.rs:1826-1846 | dropping obsolete managed keys keeps a tree resolvable if and only if it names none of them, and keeps every named key present if and only if each is supplied |
| `SecretCommit.StagedSound` | src/config.rs:1794-1846 | each of the intermediate pairs of files is sound, in all sections |
| `SecretCommit.SoundKeys` | src/config.rs:1794-1846 | if the keys of the old configuration were present and those of the new one are supplied, every key that the configuration on disk names is present at every crash point |
| `SecretCommit.Store.Prepare` | src/config.rs:1800-1810 | it succeeds exactly for managed, valid keys, and gives the staged and the final secrets |
| `SecretCommit.Store.WriteWithManagedSecrets` | src/config.rs:1794-1846 | at every state of the two files, the last one included, unmanaged secrets are unchanged, every named key is present and the resolved sections resolve; exactly when it succeeds; success installs both; failure with a written rollback restores both |
| `Profiles.PolicyRestricts` | src/profiles.rs:230-290 | a camera is restricted exactly where the base or the profile restricts it; it records exactly when it is available, without privacy, and neither turns recording off, and then in the mode of the profile or else its own |
| `Profiles.PolicySources` | src/profiles.rs:230-290 | a field attributed to the base is what the base alone gives; one is attributed to the profile exactly where the profile sets it and the base leaves it open |
| `Profiles.RegistryRules` | src/profiles.rs:152-216 | which registries are accepted, with the limits and the characters of names and identifiers written out |
| `ProfileIdentity.OrderIndependent` | src/config.rs:2229-2274 | two indexes of the same cameras agree whatever the table order |
| `ProfileIdentity.IndexStep` | src/config.rs:2229-2274 | adding one camera to an index gives the index of the longer list |
| `ProfileIdentity.CollectIndex` | src/config.rs:2229-2274 | it succeeds exactly for usable addresses and valid, unique identities, and maps exactly the addresses owned by one camera |
| `ProfileMigration.DrawIdentity` | src/config.rs:2190-2220 | the identity is the first of three draws that is not in use; it fails exactly when all three are |
| `ProfileMigration.AssignIdentities` | src/config.rs:2190-2220 | it is refused exactly for cameras that are not well formed or when three draws in a row are taken; else every camera ends with a unique identity, existing ones are kept, and nothing changes when all had one |
| `ProfileMigration.FreshDrawsSuffice` | src/config.rs:2190-2220 | draws that do not repeat are never refused |
| `ProfileMigration.RewriteTargets` | src/config.rs:2145-2168 | it fails exactly when two targets would merge; otherwise each override moves to its new key |
| `ProfileMigration.RewriteIsExact` | src/config.rs:2135-2179 | afterwards no target is an address, and old and new keys correspond one to one |
| `ProfileMigration.MigrateTargets` | src/config.rs:2135-2187 | it is refused exactly for an invalid registry or when a profile with addresses would merge targets, has no revision left or gets an invalid key; revisions rise exactly for changed profiles, and a registry without addresses is returned as it was |
| `ProfileMigration.ActiveTargetsUnambiguous` | src/config.rs:2276-2302 | it accepts exactly the registries whose active targets stand for one camera at most |
| `ProfileMigration.ActivePlaced` | src/config.rs:2135-2179 | an active address target goes to the one camera that owns the address, or to its missing marker when none does |
| `ProfileMigration.StillUnambiguous` | src/config.rs:2276-2302 | the rewrite keeps active targets unambiguous |
| `ProfileMigration.MigrateConfiguration` | src/config.rs:2112-2124 | it is refused exactly when identities or targets cannot be migrated or the result is not accepted; the result is settled, a settled configuration is returned unwritten, a write happens exactly when something changed, a refusal writes nothing, and active targets are placed |
| `RuntimeFence.RevisionsNeverDecrease` | src/keeppeek.rs:763-918 | over every interleaving neither the status revision nor the accepted revision goes back, and an accepted revision names one registry |
| `RuntimeFence.NewerStatusSurvives` | src/keeppeek.rs:593-618 | a status newer than anything accepted stays as it is until the server changes it |
| `RuntimeFence.NoStartWhileSuperseded` | src/keeppeek.rs:685-708 | no camera gets a worker group while a newer revision is pending |
| `RuntimeFence.EventsChangeByRestart` | src/keeppeek.rs:1329-1352 | while a newer revision is pending, only an event-only restart replaces the event workers of a running camera |
| `RuntimeFence.KeepPeekLoop.BeginRuntimeProfiles` | src/keeppeek.rs:763-824 | which registries are accepted, and that every configured camera is pending afterwards |
| `RuntimeFence.KeepPeekLoop.StartCameraRuntime` | src/keeppeek.rs:668-710 | a camera's workers start exactly when it is available, routable and not superseded; a camera that the active profile turns off never runs |
| `RuntimeFence.PolicyObeys` | src/keeppeek.rs:726-761 | the policy of a camera, and where each field is said to come from, is what the active profile's override, the camera's own mode and active privacy ask for, read off the registry |
| `RuntimeFence.KeepPeekLoop.StopCamera` | src/keeppeek.rs:1386-1411 | exactly that camera's workers are gone |
| `RuntimeFence.KeepPeekLoop.CompleteRuntimeProfiles` | src/keeppeek.rs:898-918 | the result is published exactly when no newer revision is pending |
| `RuntimeFence.KeepPeekLoop.ReconcileMissingTargets` | src/keeppeek.rs:593-618 | configured entries stay, the others become exactly the active targets gone missing, unless superseded |
| `RuntimeFence.KeepPeekLoop.RecordCameraState` | src/keeppeek/recording.rs:142-166 | one entry is published exactly when no newer revision is pending |
| `RuntimeFence.KeepPeekLoop.ApplyCameras` | src/keeppeek.rs:849-896 | it gives up only when superseded; else one report per configured camera, with the policy its profile asks for and whether it runs and is recorded, and unless superseded exactly the available cameras run |
| `RuntimeFence.KeepPeekLoop.ApplyRuntimeProfiles` | src/keeppeek.rs:849-918 | an acceptable registry is applied unless a newer revision got in; then, read off that registry, a camera runs exactly when the active profile does not turn it off and it could start, the status lists exactly the configured cameras and those the profile names, and each entry has the policy its override asks for and the state it is in; with the server writing in between |
| `RuntimeFence.KeepPeekLoop.AddCamera` | src/keeppeek.rs:620-666 | a running camera is refused; otherwise only the new camera's workers may start, on success exactly if it is available, and its state, with the policy its profile asks for, is published unless superseded; it is told of as applied only if it runs and its recording was acknowledged, and not before; it fails only for a camera that runs, a bad route or a newer revision |
| `RuntimeFence.KeepPeekLoop.RemoveCamera` | src/keeppeek.rs:1735-1742 | the camera is gone, and unless the status is newer its entries are those of the configured cameras, unchanged, and the missing targets |
| `RuntimeFence.KeepPeekLoop.RestartCamera` | src/keeppeek.rs:1329-1352 | an event-only change replaces the event workers whatever the status says; any other change goes through the fence |
| `RuntimeFence.KeepPeekLoop.RefreshRecordingStatus` | src/keeppeek/recording.rs:31-86 | exactly the applied entries whose recording failed become degraded, among the next 127 in key order, and only in the loop's own revision |
| `RuntimeFence.PassCoversAll` | src/keeppeek/recording.rs:47-80 | scans that follow each other visit every entry before they begin again |
| `AccessCatalog.MutateLater` | src/access.rs:802-1005 | every operation keeps the catalog valid, within 128 credentials, and only moves credentials forward: name, role, creation, expiry and origin never change |
| `AccessCatalog.MutateExact` | src/access.rs:802-1005 | when each operation is carried out, and what it then does to every field of every credential; of a new credential every field |
| `AccessCatalog.RunLater` | src/access.rs:1081-1117 | so does every run of committed or undone operations |
| `AccessCatalog.InactiveForever` | src/access.rs:537-542 | an (id, revision) pair that was active and is no longer never is again, below the largest revision |
| `AccessCatalog.ChangeInvalidates` | src/access.rs:802-955 | rotating, enabling, disabling, revoking or changing access does what it says, ends the pair in use, and touches no other credential |
| `AccessCatalog.NamesStayDistinct` | src/access.rs:846-895 | no operation gives two credentials in use the same name, ignoring case |
| `AccessCatalog.CreateAndClaim` | src/access.rs:846-1005 | a new credential has the given name, role, key and expiry and nothing else set, is active at once under revision 1, and changes no other; the initial secret can be claimed once |
| `AccessCatalog.SaturatedRevisionRevives` | src/access.rs:926-940 | at the largest revision disabling and enabling brings the same pair back |
| `AccessCatalog.RevokedForever` | src/access.rs:942-955 | a revocation time never changes |
| `AccessCatalog.AccessManager.Execute` | src/access.rs:1081-1117 | memory and file change together or not at all; the operation is carried out exactly when its conditions hold, the write succeeds and no administrator is locked out by it, and then changes exactly the fields it is about; the file holds every field but the last-used times |
| `AccessCatalog.NeverLockedOut` | src/access.rs:1278-1324 | without external authentication, a durable administrator's key that works is left by every run of operations the manager carries out |
| `AccessCatalog.GuardExact` | src/access.rs:1278-1324 | an administrator's credential may be disabled or revoked exactly when the configuration is sound and no administrator could sign in before or one still can; without external authentication, another one whose key works and does not expire |
| `AccessCatalog.DurableSignsIn` | src/access/migration.rs:132-137 | such a key signs in at any time |
| `AccessCatalog.AccessManager.Authenticate` | src/access.rs:713-758 | the last credential with this verifier decides: revoked, disabled, expired, or accepted, each exactly under its condition; success changes at most its last-used time, after a minute, in memory only |
| `AccessCatalog.AccessManager.MatchingCredential` | src/access.rs:1154-1165 | the last credential with this verifier, if any |
| `FailureLimiter.IntervalCap` | src/access.rs:698-759 | while an address neither signs in nor is evicted, admitted failures twice the limit less one apart are at least a window apart |
| `FailureLimiter.WindowCap` | src/access.rs:1247-1276 | from a failure that opens a window on, at most the limit is admitted until the window is over |
| `FailureLimiter.IntervalCapTight` | src/access.rs:1247-1276 | for every limit above one a run meets the bound |
| `FailureLimiter.LimitedBecause` | src/access.rs:1247-1276 | an address is turned away only if the whole limit of its failures was admitted within a window that still runs, all since it last signed in or was evicted |
| `FailureLimiter.RunKeepsTable` | src/access.rs:1257-1276 | the table never exceeds 1,024 addresses over a run |
| `FailureLimiter.Limiter.Configure` | src/access.rs:689-696 | both limits are the given ones, or one attempt and one second if those are more |
| `FailureLimiter.Limiter.Oldest` | src/access.rs:1260-1265 | the address evicted has the earliest window |
| `FailureLimiter.Limiter.RegisterFailure` | src/access.rs:1257-1276 | the failure is counted in its window or opens one, evicting at most one address, an oldest |
| `FailureLimiter.Limiter.Authenticate` | src/access.rs:698-759 | an address is turned away exactly when its window runs and is used up; a good key forgets the address, a bad one is counted; no other running window is lost or changed, save that the oldest makes room when 1,024 run |
| `ForwardingWalk.NormalizeMapped` | src/access.rs:397-404 | exactly the IPv4-mapped addresses (section 2.5.5.2 of RFC 4291) become their IPv4 address |
| `ForwardingWalk.Walk` | src/access.rs:337-342 | the walk ends at the rightmost untrusted hop, or at the leftmost if all are trusted |
| `ForwardingWalk.Scan` | src/access.rs:290-300 | the header loop counts client headers and notices other forwarding headers |
| `ForwardingWalk.HeaderNames` | src/access.rs:406-415 | which header names count, in whatever case |
| `ForwardingWalk.Classify` | src/access.rs:284-368 | each reason is given exactly under its condition on peer, headers and chain, with the client that goes with it |
| `ForwardingWalk.ClassifiedUnique` | src/access.rs:284-368 | these conditions leave one classification |
| `ForwardingWalk.PrependKeepsClient` | src/access.rs:284-368 | hops put before a chain with an untrusted hop leave the classification as it was, or make it malformed and remote exactly when they do not parse or exceed 16 hops |
| `ForwardingWalk.HoldsRange` | src/access.rs:370-372 | a network is the range of addresses of its family that its prefix leaves open |
| `ForwardingWalk.NetworkSizes` | src/access.rs:370-372 | a prefix of full length leaves one address, and each bit less doubles that |
| `ForwardingWalk.ContainsAny` | src/access.rs:370-372 | any of the networks will do |
| `ForwardingWalk.PiecesJoin` | src/access.rs:417-426 | the pieces hold no comma and joined they are the text |
| `ForwardingWalk.ChainHops` | src/access.rs:417-426 | a chain is accepted exactly with at most 16 hops that all parse, and holds them normalised in order |
| `ForwardingWalk.PiecesConcat` | src/access.rs:417-426 | splitting at commas distributes over joining with a comma |
| `DeliveryQueue.Worker.Publish` | src/isapi.rs:357-393 | a batch is taken whole or not at all, within 128 entries and 16 MiB; what the channel takes is a prefix of the queue, in order, as long as it answers in time |
| `DeliveryQueue.Worker.Drain` | src/isapi.rs:373-391 | the sending loop against any replies; retries keep the order |
| `DeliveryQueue.BytesAdd` | src/isapi.rs:358-366 | the size of a queue with a batch is the sum over its events |
| `DeliveryQueue.FeedExact` | src/isapi.rs:373-391 | how many events the channel takes of a script of answers, and how the publish ends |
| `DeliveryQueue.TailOffered` | src/isapi.rs:264-293 | the retained transitions go first; however the stream ends, what the assembler holds is offered after it, batches that fit are added and sent in order, and the end of the stream is reported |
| `DeliveryQueue.CleanupOffered` | src/isapi.rs:214-219 | after every connection, however it went, what the tracker closes is offered |
| `DeliveryQueue.SmoothRun` | src/isapi.rs:210-262 | while the channel keeps up, the loop offers and sends everything of every turn it takes, in order, until a shutdown or an error that ends it for good |
| `DeliveryQueue.Worker.Observe` | src/isapi.rs:264-293 | what a connection offers, up to the first failure, and how it ends; what the assembler holds is offered whatever the end, and delivered if it fits; one that ends well has delivered every batch in order |
| `DeliveryQueue.Worker.Loop` | src/isapi.rs:210-250 | turn after turn until the first shutdown or permanent error, with the waits in between |
| `DeliveryQueue.WaitsBounded` | src/isapi.rs:210-250 | every wait is between 1 and 30 seconds: one second at first and after a notification, else twice the wait before |
| `DeliveryQueue.Worker.Run` | src/isapi.rs:210-262 | what is sent and retained after all turns; delivered plus dropped equals accepted; while the channel keeps up everything offered is sent; the fallback runs exactly for a camera that answered 404 or 405, with nothing pending and no shutdown |
| `WakeRegistry.ConfiguredUnique` | src/battery_wake.rs:246-254 | at most one identity is the longest allowed prefix |
| `WakeRegistry.ConfiguredExact` | src/battery_wake.rs:246-254 | a camera reporting a configured identity is found under it |
| `WakeRegistry.WakeCore.ConfiguredUid` | src/battery_wake.rs:246-254 | the longest allowed prefix, in whatever order the set is read |
| `WakeRegistry.WakeCore.RegisterAt` | src/battery_wake.rs:281-310 | which heartbeats are accepted, at most 256 entries, and when a heartbeat ends a wake request |
| `WakeRegistry.WakeCore.RegistrationAt` | src/battery_wake.rs:327-338 | the last accepted heartbeat exactly when it is at most `stale_after` old, whatever lookups came between |
| `WakeRegistry.WakeCore.NoteWakeRequested` | src/battery_wake.rs:340-349 | the request is pending since now, and the registry still agrees with its history |
| `WakeRegistry.WakeCore.NoteMediaConnected` | src/battery_wake.rs:351-360 | the request is over, and the registry still agrees with its history |
| `WakeRegistry.WakeCore.WakePending` | src/battery_wake.rs:362-370 | since when the request of the configured camera is pending, if it is |
| `CameraIndex.KeyInjective` | src/camera_database.rs:758-760 | equal combined keys mean equal normalised brands and models |
| `CameraIndex.InsertIndex` | src/camera_database.rs:711-716 | the pair is in the index once, and nothing else changed |
| `CameraIndex.BuildIndexes` | src/camera_database.rs:678-709 | it succeeds exactly when no identity is used twice, and the indexes hold exactly the normalised names of every camera |
| `CameraIndex.MatchIndexes` | src/camera_database.rs:278-284 | one candidate is exact, none is missing, more are ambiguous |
| `CameraIndex.MatchCamera` | src/camera_database.rs:133-146 | the lookup gives what counting by brand and model, then by model alone, gives |
| `CameraIndex.ScanDecides` | src/camera_database.rs:133-146 | counting leaves one outcome |
| `MediaTime.TicksRoundDown` | src/media_time.rs:13-22 | a duration is the exact time rounded down to nanoseconds, and nothing without a timescale |
| `MediaTime.TicksRoundNearest` | src/media_time.rs:3-11 | ticks are the exact time rounded to the nearest tick |
| `MediaTime.TicksRoundTrip` | src/media_time.rs:3-22 | ticks survive the trip if and only if what is lost to nanoseconds is at most half a tick |
| `MediaTime.ExactTimescales` | src/media_time.rs:3-22 | for which timescales every tick count survives, among them all up to 500,000,001 |
| `MediaTime.DurationRoundTrip` | src/media_time.rs:3-22 | a duration survives to within half a tick and a nanosecond |
| `MediaTime.Monotone` | src/media_time.rs:3-22 | both conversions are monotone |
| `MediaTime.ProductsFit` | src/media_time.rs:3-22 | the intermediate products stay below 2^64 |

## Left out

- Storage: symbolic links, permissions, Windows file replacement, the transfer of catalog authority, recording-catalog path rewriting, conflicts between several routes, names that are not Unicode, short reads.
- StorageMove.Disk.MoveFiles: unsafe runs are characterised for one directory of files; for whole trees the condition that excludes them is given.
- Secrets: the reading and printing of the two files as TOML.
- Profiles: notification acknowledgements, the wait for recordings, and reason texts.
- AccessCatalog.AccessManager.Execute: what external authentication lists and admits is given as answers, because it depends on other parts of the configuration.
- Access: audit events, the opening of old catalog formats, the parsing of the authorization header, descriptions, the trimming of names (a name is taken as trimmed), and the checks on camera-access lists.
- ForwardingWalk.Classify: trimming and parsing of one address is a parameter.
- DeliveryQueue.Worker.Observe: what the tracker and the assembler produce is given as batches.
- WakeRegistry: session anchors, the wake burst, and the XML messages.
- CameraIndex: free-text search, stream templates, and the reading of the archive.
- Sockets, HTTP, threads, RTSP, ONVIF and Reolink workers, backup, health, logging and the user interface.
