# Kohen, modelled and verified

Kohen is a Kubernetes operator. A ConfigSync names a git repository, a path in it and
a workload; reconciling it fetches the repository, renders the tree into a ConfigMap,
applies the ExternalSecrets found in git, waits for the referenced secrets, and wires
and stamps the workload so that its pods run one identified config version. This
project models the parts of the operator that hold state and proves what they promise.

Every operation that changes state in place in the source is a class method with the
fields and loops it has there, tied by its `ensures` to a function on values; the
theorems are about those functions and about whole runs of them.

| files | what they hold |
|---|---|
| `FetchCache`, `FetchProtocol`, `FetchTheorems`, `FetchClock`, `FetchProgress` | the worktree cache: the locked regions as functions and as a class; every interleaving of fetches as a transition system with its invariant; what callers and the disk get from it; the clock eviction goes by; that nothing gets stuck |
| `ServerSideApply`, `Wiring`, `Coexistence` | Server-Side Apply on one object (KEP-555), the field sets Kohen applies, and non-interference with the other managers, for single requests and for the whole operator |
| `Ownership`, `Manifests` | objects Kohen owns fully: no adoption, pruning by label, the all-or-nothing manifest guard |
| `Status`, `Secrets`, `SecretRuns` | status conditions; the readiness policy, sticky establishment and the outage clock, over histories |
| `Version` | the config version and what it identifies |
| `Reconcile`, `Controller` | one reconcile and one finalize, as functions and as the class whose methods perform them |
| `ReconcileTheorems`, `ReconcileEffects`, `ReconcileStatus`, `ReconcileVersions`, `ReconcileRuns`, `ReconcileEdits`, `ReconcileHistory`, `ReconcileWitness` | fresh readiness, last-good gating, every condition of the status, which rotations change the version, one rollout per change, runs in which the spec is edited, what a run leaves told from its history, and runs in which a promise fails |
| `Singleton` | the order between rival ConfigSyncs and runs of several of them |
| `Render`, `Redact`, `RedactSets` | the file tree to ConfigMap keys; secret redaction, of one secret and of any set |
| `Text` | optional values, substring occurrence, Go's string order and sorting |

Outcomes of the outside world (git, the API server, resolvers, the clock, map
iteration order) are parameters or nondeterministic choices, so each theorem holds for
all of them.

Every event of a run carries the spec of its day, so runs in which a ConfigSync is edited
are covered; a theorem asks for an unedited wiring only where it ties the current spec to
what the workload carries.

Nine promises are true only under a condition. The model keeps the code as it is,
proves the condition and shows an input that fails it:

- WorkloadWired, and with it Ready, says that the owned fields were merged. In auto mode
  a matching stamp alone sets it. Over any run it tells the truth exactly if the wiring was
  not skipped or was last done for the fields the spec lists now
  (`WiredTellsTruthExactly`); that always holds while the wiring is unedited
  (`WiredMeansCarried`). An edit of what is wired at an unchanged version goes unnoticed
  (`EditGoesUnnoticed`), a successor ends Ready over its elder's fields
  (`SuccessorReadyOverElder`), a stamp left by another manager does as well
  (`StampAloneReadsAsWired`), and the repair of drift promised at
  internal/controller/configsync_controller.go:683-685 does not happen while the stamp
  matches.
- MaxDegradedExceededTotal counts "once on entry"
  (internal/controller/configsync_controller.go:243-245) exactly if no reconcile that counted
  an entry failed to save its status (`CountsOnceExactly`, `CountedTwice`).
- Redaction: whatever else is registered and in whatever priority, a secret survives in
  some output exactly if it is assembled: it is part of the placeholder, an output can
  begin with it, or it continues the placeholder's end with what can begin one; what can
  begin an output is text without a secret, or such text leading into a placeholder
  (`SecretExactly`, `SetExactly`). For sets without brackets that means being part of the
  word `REDACTED` (`RedactionExactly`). Only a secret that holds the whole placeholder is
  outside this condition; registered alone it always survives (`LoneSecretExactly`), and
  among others inputs of bounded length decide (`ShortInputSuffices`).
- The early raw-size rejection can turn away an acceptable tree exactly if the
  configured limit exceeds 1 MiB by two bytes or more (`EarlyRejectionExactly`).
- A successful manifest pass leaves exactly the git-listed ExternalSecrets owned unless
  the cluster serves neither pruned version and an unlisted one was left over
  (`SuccessIsExactly`, `LeftoverStays`).
- A finalize spares a successor's fields exactly if its list call succeeds and shows a
  live rival that wins over the sync being deleted (`FinalizeSparesExactly`,
  `SuccessorStripped`, `FailedListStrips`). The comment at
  internal/controller/configsync_controller.go:462-465 promises that a sync unwires only
  what it owns; the model follows the code.
- A cached fetch ends as a fresh clone would, unless the call that cloned its entry was
  cut short by its own context (`CachedFetchRefinesUncached`, `JoinerInheritsCut`).
- Prune deletes only what its owner controls exactly if nothing labelled for its name is
  controlled by another UID (`PrunesUncontrolledExactly`), as happens when a ConfigSync is
  created again under its old name (`RecreatedPrunesWhatItMayNotApply`).
- Another manager's unforced apply behaves as without Kohen unless it conflicts with
  fields only Kohen owns (`UnforcedCommutesExactly`, `RefusedForKohenAlone`).

## Model

| member | source | states |
|---|---|---|
| `FetchCache.Worktrees.constructor` | internal/git/cache.go:41-49 | an empty cache; a TTL or size that is not positive becomes 10 minutes or 128 |
| `FetchCache.Worktrees.Enter` | internal/git/cache.go:56-80 | first locked region of acquire: a hit takes one more reference on the shared entry, a miss publishes an unready entry with one reference, a failed mkdir changes nothing |
| `FetchCache.Worktrees.Conclude` | internal/git/cache.go:84-94 | second locked region: a failed clone records its error, dies and leaves the map; a good one records its commit and evicts |
| `FetchCache.Worktrees.Announce` | internal/git/cache.go:95-95 | close(ready) touches nothing but the readiness of that entry |
| `FetchCache.Worktrees.Release` | internal/git/cache.go:108-118 | one reference is given back and the clock set; the caller must remove the directory exactly when the entry is dead and unheld |
| `FetchCache.Worktrees.EvictLocked` | internal/git/cache.go:122-151 | eviction terminates and satisfies Evicts: only idle entries go, no idle expired one stays, the map ends at most max or wholly in use, no survivor that is idle is older than a victim, an unexpired victim only if the map ends at least max |
| `FetchCache.Worktrees.FindOldest` | internal/git/cache.go:132-142 | the inner loop finds a least recently used idle key, or none exactly if nothing is idle |
| `FetchCache.EvictionCountDetermined` | internal/git/cache.go:122-151 | map order and ties in age are the only freedom: any two evictions of one cache at one time evict equally many entries |
| `FetchProtocol.StepKeepsInv` | internal/git/cache.go:55-151 | every atomic step of every call keeps the invariant: counts are holders, unready entries have their cloner, each directory is kept, owed by one call, or removed |
| `FetchProtocol.RunKeepsInv` | internal/git/cache.go:55-151 | the invariant holds in every state of every interleaving |
| `FetchTheorems.DirectoryFate` | internal/git/cache.go:55-151 | in every reachable state refs is the number of holders and each created directory is in exactly one of: the map, dead but held, owed a removal by exactly one call, removed once |
| `FetchTheorems.RemovalIsSafe` | internal/git/cache.go:96-118 | a directory is removed only when its entry is dead and nobody holds it, and never twice |
| `FetchTheorems.HeldTreeStable` | internal/git/cache.go:28-38 | while a call holds its entry the directory is on disk and, once cloned, no step of any call changes its tree |
| `FetchTheorems.StepSteady` | internal/git/cache.go:82-95 | an entry gets its outcome once, from the call that cloned it |
| `FetchTheorems.SingleFlight` | internal/git/cache.go:57-84 | at most one clone per key is in progress and the finishing cloner finds its own entry under its key |
| `FetchTheorems.WaiterHasCloner` | internal/git/cache.go:59-65 | a waiter on an unready entry always has exactly one call at work on that entry |
| `FetchTheorems.JoinersAgree` | internal/git/cache.go:57-104 | callers that joined one entry end with the same directory and commit, the same error, or their own cancellation |
| `FetchTheorems.QuiescentIsClean` | internal/git/source.go:146-203 | when all calls have finished every refs is zero and the disk holds the cached directories and nothing else |
| `FetchClock.ClockStep` | internal/git/cache.go:55-118 | in every step of every call only a release moves an entry's lastUse, to its own time; every other step keeps it and takes no reference away |
| `FetchClock.ClockIsLastRelease` | internal/git/cache.go:108-118 | in every state of every interleaving lastUse is the time of the entry's last release, and an entry never released is held |
| `FetchClock.EvictionByRelease` | internal/git/cache.go:122-151 | in every interleaving an evicted entry was last released more than the TTL ago or the map is still at its cap, an idle survivor was not, and victims were released no later than idle survivors |
| `FetchProgress.EvictionExists` | internal/git/cache.go:122-151 | from any cache at any time there is an eviction that keeps every promise |
| `FetchProgress.ReachableNeverStuck` | internal/git/cache.go:55-151 | in every reachable state with an unfinished call some step other than a cancellation can be taken |
| `FetchProgress.StepMovesOn` | internal/git/cache.go:55-151 | every step that starts no call brings the acting call nearer its end or removes one more directory, so without new calls all runs are finite |
| `FetchProgress.AllCanFinish` | internal/git/source.go:146-203 | from every reachable state all calls can be driven to their ends without a cancellation |
| `FetchTheorems.RunKeepsContent` | internal/git/source.go:146-203 | in every interleaving what a call reports is a clone outcome of its key, seen through its own subpath check |
| `FetchTheorems.CachedFetchRefinesUncached` | internal/git/source.go:181-203 | if checkout is a function of the key but for clones cut short by their own caller, each finished call was cancelled, or has exactly the commit, tree, rejection or error of a fresh clone, or the error of its entry's cut clone |
| `FetchProgress.JoinerInheritsCut` | internal/git/cache.go:59-70 | a run in which a joiner with a live context ends with the error of a clone that only the cloner's context cut short |
| `ServerSideApply.ApplyOwnsExactly` | internal/wire/wire.go:310-324 | a successful apply leaves the manager owning exactly the fields it listed, with those values |
| `ServerSideApply.RefusedExactly` | internal/wire/wire.go:310-324 | an unforced apply is refused if and only if another manager set a listed field to another value |
| `ServerSideApply.OwnersExactly` | internal/wire/wire.go:310-324 | who owns each field after a successful apply and with which value: the manager what it listed, the others what they owned unless the value was taken over |
| `ServerSideApply.ApplyIdempotent` | internal/wire/wire.go:310-324 | applying the same set again changes nothing |
| `ServerSideApply.KohenKeepsForeign` | internal/wire/wire.go:310-324 | an unforced apply by either of Kohen's managers never changes what others own, its values or its owners |
| `ServerSideApply.OthersMergeCommutes` | internal/wire/wire.go:310-324 | an apply by another manager commutes with forgetting Kohen |
| `ServerSideApply.UnforcedCommutesExactly` | internal/wire/wire.go:310-324 | another manager's unforced apply behaves as without Kohen if and only if it is not refused for fields Kohen alone owns |
| `ServerSideApply.RefusedForKohenAlone` | internal/wire/wire.go:310-324 | an unforced apply refused because of a field only Kohen owns, which without Kohen would have set it |
| `ServerSideApply.NonInterference` | internal/wire/wire.go:188-278 | for every interleaving the others' fields, values and owners are those of the run with Kohen's writes deleted |
| `ServerSideApply.FinalizeLeavesOthersExactly` | internal/rollout/rollout.go:176-195 | Unwire then ClearStamp leaves exactly the others' projection |
| `ServerSideApply.TwoManagersSettle` | internal/rollout/rollout.go:30-37 | disjoint sets under two managers are a joint fixpoint |
| `ServerSideApply.OneManagerStrips` | internal/rollout/rollout.go:30-37 | with one shared manager the second apply would remove the fields of the first |
| `Wiring.Workload.WireTo` | internal/wire/wire.go:188-257 | Wire builds its lists by appending and applies them unforced; unsupported kind, absent workload, unknown container, conflict and API failures leave the workload as it was |
| `Wiring.Workload.ResolveContainer` | internal/wire/wire.go:160-184 | the requested container itself if the workload has it, by default the first in order that has a name, and none only if there is none to choose |
| `Wiring.TargetExactly` | internal/wire/wire.go:160-184 | what the theorems name as the container is that choice |
| `Wiring.WireExactly` | internal/wire/wire.go:188-257 | success and each of the four failures of Wire, told from the kind, the API, the containers and the owners of the fields |
| `Wiring.RetractExactly` | internal/wire/wire.go:261-278 | an unwire or clear succeeds exactly for a supported kind whose API answers; an absent workload needs no write |
| `Wiring.Workload.Unwire` | internal/wire/wire.go:261-278 | applies the empty set; an absent workload is a success |
| `Wiring.Workload.StampNoRestart` | internal/rollout/rollout.go:167-174 | sets the object annotation under the stamp manager alone |
| `Wiring.Workload.ClearStamp` | internal/rollout/rollout.go:180-195 | applies the stamp manager's empty set |
| `Wiring.EverySurfaceIsWired` | internal/wire/wire.go:196-257 | the config volume, every file reference and every env entry is listed as asked: no item displaces another, secret volumes never clash with the config volume |
| `Wiring.NothingElseIsWired` | internal/wire/wire.go:196-257 | every field listed is one the spec asks for, on the chosen container |
| `Wiring.WiredMeansOwned` | internal/wire/wire.go:188-257 | after a successful Wire Kohen owns exactly its set with its values, and a requested stamp is on the template |
| `Wiring.NoneModeSettles` | internal/rollout/rollout.go:30-37 | wiring then stamping at an unchanged version is a fixpoint of both |
| `Coexistence.StepUnobserved` | internal/controller/configsync_controller.go:285-501 | no reconcile or finalize, whatever happens in it, changes what other managers own on the workload |
| `Coexistence.OthersSeeNoKohen` | internal/controller/configsync_controller.go:285-501 | after any interleaving of reconciles and finalizes with others' applies, container changes, deletions and creations, their part of the workload, its containers and its existence are those of the run with Kohen deleted; unforced applies are admitted where they are not refused for Kohen alone |
| `Coexistence.FinalizeLeavesNoTrace` | internal/controller/configsync_controller.go:458-479 | a finalize that runs through leaves exactly the workload of the run in which Kohen never existed |
| `Ownership.Cluster.ApplyObject` | internal/apply/apply.go:92-135 | creates or updates only what is absent or owned by label and controller UID; otherwise refuses or fails without a change |
| `Ownership.AppliedExactly` | internal/apply/apply.go:92-135 | when an apply succeeds and when it is refused; afterwards the object holds the given content, the label "kohen", the owner's name and its UID as controller, and nothing else changed |
| `Ownership.Cluster.Prune` | internal/apply/apply.go:140-170 | deletes label-selected objects that are not kept; succeeds exactly if the list and all deletes do, and a failure has deleted part of them and nothing else |
| `Ownership.Cluster.PruneKind` | internal/apply/apply.go:177-191 | an unserved version has nothing to prune |
| `Ownership.PrunedExactly` | internal/apply/apply.go:140-170 | a clean prune deletes exactly the objects of the kind labelled "kohen" for the owner and not kept |
| `Ownership.OthersUntouched` | internal/apply/apply.go:92-191 | under any interleaving of Apply and Prune, an object labelled for none of the acting owners, an unlabelled one in particular, is never changed or deleted |
| `Ownership.OwnerNeverChanges` | internal/apply/apply.go:210-222 | while an object exists, owners with UIDs never change its labels or controller |
| `Ownership.RetargetsExactly` | internal/apply/apply.go:217-221 | an apply changes an existing object's owner if and only if the acting owner has no UID and the object has another controller |
| `Ownership.PruneDeletesOwn` | internal/apply/apply.go:146-149 | with distinctly named owners that keep their UIDs, Prune by labels deletes only what its owner controls |
| `Ownership.PrunesUncontrolledExactly` | internal/apply/apply.go:146-170 | a prune deletes something its owner does not control if and only if something labelled for its name, not kept, has another controller |
| `Ownership.PruneReachesIncarnations` | internal/apply/apply.go:140-170 | whatever the UIDs, over runs what a prune deletes without controlling it was there at the start or was applied by an owner of the same name and another UID |
| `Ownership.RecreatedPrunesWhatItMayNotApply` | internal/apply/apply.go:210-222 | a sync created again under its old name prunes an object that its own Apply refuses |
| `Manifests.Check` | internal/manifest/guard.go:59-107 | a manifest passes exactly if it is an ExternalSecret of its group with a name, in the guard's namespace or none, and with a store list every store is on it; otherwise the first rail it breaks is reported |
| `Manifests.ViolationExactly` | internal/manifest/guard.go:59-107 | what the theorems name as the violation is the first rail the fields break |
| `Manifests.Validate` | internal/controller/manifests.go:47-56 | the validation loop reports a violation exactly if some manifest has one |
| `Manifests.ApplyManifestsTo` | internal/controller/manifests.go:36-98 | validation, the apply loop stopping at the first refusal, and the prune loop over both versions |
| `Manifests.RejectionChangesNothing` | internal/controller/manifests.go:45-56 | a pass is rejected if and only if the fields of some manifest are not admissible, with the rail the first such manifest breaks, and then no object changes |
| `Manifests.FailuresExactly` | internal/controller/manifests.go:36-98 | the cause of each failure of a pass: an object it may not write, an unserved version or failing call, a served version whose prune failed |
| `Manifests.SuccessAt` | internal/controller/manifests.go:58-97 | after success each listed name holds the content of its last manifest under the owner's labels and controller, unlisted owned ones of served versions are gone, the rest is as before |
| `Manifests.SuccessIsExactly` | internal/controller/manifests.go:81-89 | success leaves exactly the git-listed ExternalSecrets label-owned if and only if a pruned version is served or nothing unlisted was owned |
| `Manifests.LeftoverStays` | internal/controller/manifests.go:17-20 | with neither version served an unlisted one stays owned after success |
| `Manifests.PassKeepsOthers` | internal/controller/manifests.go:36-98 | however far a pass gets it leaves other owners' and unlabelled objects and every ConfigMap alone |
| `Secrets.Evaluate` | internal/secret/secret.go:133-193 | all ready, fail closed on a first resolution, else fail safe within the bound |
| `Secrets.DecisionExactly` | internal/secret/secret.go:133-193 | the verdict, both reasons, the bound and the tokens, told from the fields of the references and the clock |
| `Secrets.EnvTokensOf` | internal/secret/secret.go:198-207 | the sorted tokens of env-surfaced references that take part in rollouts |
| `Secrets.SecretStatus.ResolveSecrets` | internal/controller/secrets.go:27-99 | the new reference statuses keep prior establishment, the condition flips only with readiness, the outage counts from its transition |
| `Secrets.ResolvedExactly` | internal/controller/secrets.go:36-80 | the new statuses list the references in order, each resolved as its resolver says and established as its name was |
| `Secrets.SecretStatus.MarkSecretsEstablished` | internal/controller/secrets.go:107-111 | every current reference becomes established |
| `SecretRuns.FlagIsHistory` | internal/controller/secrets.go:36-111 | the persisted flag is set if and only if some reconcile resolved everything with the workload wired and the name was listed ever since |
| `SecretRuns.FlagIsSticky` | internal/controller/secrets.go:101-111 | a flag turns true only in such a reconcile and stays while the name is listed |
| `SecretRuns.AwaitingFirstExactly` | internal/secret/secret.go:161-171 | AwaitingFirstResolution is decided if and only if some unready reference has no such reconcile |
| `SecretRuns.ConditionIsHistory` | internal/controller/secrets.go:46-49 | a False condition carries the time of the first unready evaluation of the present outage |
| `SecretRuns.MaxDegradedExactly` | internal/secret/secret.go:173-185 | MaxDegradedExceeded if and only if something is unready, all of it established, and the outage began more than the bound ago with no ready evaluation since |
| `SecretRuns.MetricCountsEntries` | internal/controller/configsync_controller.go:241-245 | the counter equals the number of entries into the exceeded state |
| `Version.VersionWithSecrets` | internal/rollout/rollout.go:72-81 | the version from the short commit and the sorted, joined and hashed tokens |
| `Version.ShortCommitExactly` | internal/rollout/rollout.go:44-49 | the first twelve characters, or all there are |
| `Version.VersionFormat` | internal/rollout/rollout.go:56-81 | "git:", the short commit and, with tokens, "-sec:" and the hash of the sorted tokens |
| `Version.VersionIdentity` | internal/rollout/rollout.go:60-81 | two versions are equal if and only if the short commits and the name-to-token maps of folding references are, the hash not colliding on the two inputs |
| `Version.SameTokensSameVersion` | internal/rollout/rollout.go:69-71 | whatever the hash: reference order, file-surfaced and opted-out tokens never reach the version |
| `Version.RotationExactly` | internal/secret/secret.go:198-207 | rotating one secret changes the version if and only if it is env-surfaced, not opted out and its token changed |
| `ReconcileVersions.DesiredIdentity` | internal/controller/configsync_controller.go:254-257 | two reconciles under whatever specs ask for the same version if and only if the first twelve characters of their commits and their env-surfaced, not opted-out references with tokens are the same, the hash not colliding |
| `ReconcileVersions.RotationChangesDesired` | internal/controller/secrets.go:70-77 | a rotation changes the version a reconcile asks for if and only if the reference is surfaced to the environment, not opted out, and the token changed |
| `ReconcileVersions.RotationRolls` | internal/controller/configsync_controller.go:350-393 | in auto mode, with the version from before stamped, the reconcile that sees the rotation and reaches the wire rewrites the pod template exactly then |
| `Controller.Reconciler.SyncOnce` | internal/controller/configsync_controller.go:127-186 | sync up to the render, with every early exit and its conditions |
| `Controller.Reconciler.SyncObjects` | internal/controller/configsync_controller.go:190-209 | ConfigMap apply and prune, each failure closing Ready |
| `Controller.Reconciler.SyncManifests` | internal/controller/configsync_controller.go:214-224 | the manifest pass and its two kinds of failure |
| `Controller.Reconciler.PassGate` | internal/controller/configsync_controller.go:230-252 | secret resolution, the counter, and the gate |
| `Controller.Reconciler.FinishSync` | internal/controller/configsync_controller.go:254-274 | version, wiring, establishment only when wired, readiness |
| `Controller.Reconciler.WireAndStampTo` | internal/controller/configsync_controller.go:285-394 | inspection, the auto branch that skips a matching stamp, and the wire |
| `Controller.Reconciler.WireWithoutRestart` | internal/controller/configsync_controller.go:317-348 | the rollout: none branch: wire, read the object stamp, stamp if it differs |
| `Controller.Reconciler.SetReady` | internal/controller/configsync_controller.go:533-557 | Ready from the six sub-conditions |
| `Controller.Reconciler.FinalizeOnce` | internal/controller/configsync_controller.go:458-492 | unwire and clear the stamp unless a rival owns the workload, then prune |
| `Reconcile.SecretSurfaces` | internal/controller/secrets.go:118-137 | the file and env surfaces of the references in order |
| `ReconcileTheorems.ReadyExactly` | internal/controller/configsync_controller.go:132-274 | whatever the status before, a reconcile ends Ready if and only if every stage succeeded, then with all six sub-conditions True and the stamp at the mode's place equal to ConfigVersion and WorkloadVersion; every other exit ends with Ready False |
| `ReconcileTheorems.FreshReadiness` | internal/controller/configsync_controller.go:533-557 | a reconcile that ends Ready also does so from a blank status, setting all six sub-conditions itself |
| `ReconcileTheorems.WireOutcome` | internal/controller/configsync_controller.go:285-394 | wireAndStamp sets WorkloadWired True exactly if the inspection passed and the wire succeeded or, in auto mode, the template stamp already matched; sets RolloutComplete to what it returns; leaves the other conditions alone |
| `ReconcileTheorems.GateOpens` | internal/controller/configsync_controller.go:230-257 | the gate opens exactly if every reference resolves, and the version then does not depend on stored status |
| `ReconcileEffects.SyncEffects` | internal/controller/configsync_controller.go:127-275 | the objects, the workload, the secret ledger and the counter after a reconcile, told from inputs and world |
| `ReconcileStatus.StatusExactly` | internal/controller/configsync_controller.go:127-275 | after a reconcile from any status, every condition with its value, reason and the time it turned, or that it was not touched, and every other field: commit, config version, workload version, rollout in progress; told condition by condition from inputs and world |
| `ReconcileStatus.WiredSayingExactly` | internal/controller/configsync_controller.go:285-434 | each reason for not wiring, in its order of precedence, told from the kind, the workload and the API |
| `ReconcileStatus.ManifestsSayingExactly` | internal/controller/manifests.go:36-117 | each reason of ManifestsApplied, told from the first inadmissible manifest |
| `ReconcileStatus.AllResolvedExactly` | internal/controller/secrets.go:155-210 | a reference counts as resolved exactly if its resolver answers ready and its surface is a file with a mount path only or an env entry with variable and key only |
| `ReconcileEffects.OneConfigMapLeft` | internal/controller/configsync_controller.go:190-208 | once the ConfigMap was applied and the others pruned, the one the spec names is the only one labelled for the sync |
| `ReconcileEffects.OthersKept` | internal/controller/configsync_controller.go:190-224 | however far a reconcile gets, an object not labelled for the sync stays as it is |
| `ReconcileEffects.LastGood` | internal/controller/configsync_controller.go:152-252 | failing to fetch or render changes no owned object; the workload changes only after fetch, render, ConfigMap, manifests and all secrets succeeded, and the ConfigMap then already holds the content the same commit rendered |
| `ReconcileEffects.SyncRequeues` | internal/controller/configsync_controller.go:132-274 | back off exactly on transient failures, come back soon exactly while a secret or the rollout is awaited, otherwise steady |
| `ReconcileEffects.CarriedServesEveryReference` | internal/controller/secrets.go:118-137 | once all references resolved, a workload that carries Kohen's fields serves each of them; an unknown surface never gets that far |
| `ReconcileEffects.SurfacedOnly` | internal/controller/secrets.go:118-137 | no file or env surface without a reference that asks for it |
| `ReconcileEffects.FinalizeExactly` | internal/controller/configsync_controller.go:458-492 | a complete finalize restores the workload to what others own and deletes the sync's ConfigMaps and served ExternalSecrets; a singleton loser leaves the workload alone |
| `ReconcileEffects.FinalizeSucceedsExactly` | internal/controller/configsync_controller.go:458-492 | which calls a finalize needs to run through: both retractions unless a rival owns the workload, the ConfigMap prune, and the prune of each served version |
| `ReconcileRuns.OneRolloutPerChange` | internal/controller/configsync_controller.go:350-393 | in auto mode with no other writer, under any edits of the spec, pod-template writes of any run are the adjacent differences of the versions that reached a wire, from the initial stamp |
| `ReconcileRuns.NoneNeverRestarts` | internal/controller/configsync_controller.go:317-348 | with rollout: none no run after a successful wire touches the pod template, whatever versions and edits outside the wiring follow |
| `ReconcileRuns.NoneIsFixpoint` | internal/controller/configsync_controller.go:317-348 | at an unchanged version a settled and stamped workload is a fixpoint of every further run |
| `ReconcileHistory.LastGoodOverRuns` | internal/controller/configsync_controller.go:127-275 | under any edits, over a run without a finalize, somebody else's write, or a reconcile that passed every gate and the wire, the workload is unchanged |
| `ReconcileHistory.StampIsHistory` | internal/controller/configsync_controller.go:285-394 | under any edits, of the rollout mode too, the template's and the object's stamp are what the last reconcile that settled each left: its desired version, or none |
| `ReconcileHistory.ConfigMapIsHistory` | internal/controller/configsync_controller.go:190-208 | under any edits, of its name too, the ConfigMap named by the last reconcile that applied one holds the content that reconcile rendered, under the owner's labels and controller |
| `ReconcileHistory.ConfigNeverOlderThanStamp` | internal/controller/configsync_controller.go:190-257 | in any run, under any edits, the ConfigMap comes from the same reconcile as either stamp or a later one |
| `ReconcileHistory.LedgerIsFold` | internal/controller/configsync_controller.go:230-267 | the persisted secret status of any run of reconciles under any specs, finalizes and others' deeds is the fold of the saved evaluations |
| `ReconcileHistory.CounterExactly` | internal/controller/configsync_controller.go:241-245 | after any run the counter is the metric of the saved history plus one for each entry counted in a reconcile whose status write failed |
| `ReconcileHistory.CountsOnceExactly` | internal/controller/configsync_controller.go:241-245 | the counter equals the number of entries into the exceeded state if and only if no reconcile of the run counted an entry and then failed to save its status |
| `ReconcileWitness.CountedTwice` | internal/controller/configsync_controller.go:109-119 | a run of four reconciles that counts its only entry twice |
| `ReconcileRuns.WiredCarriesExactly` | internal/controller/configsync_controller.go:350-378 | after WorkloadWired is set in auto mode the workload carries exactly Kohen's fields for the version if and only if it was wired just now or, stamped already, carried them before |
| `ReconcileEdits.OwnsWhatItLastWired` | internal/controller/configsync_controller.go:317-378 | under any edits, with no other writer, Kohen owns exactly the fields the last reconcile that really wired listed |
| `ReconcileEdits.WiredTellsTruthExactly` | internal/controller/configsync_controller.go:350-378 | over any run, after WorkloadWired is set True the workload carries the spec's fields if and only if the wiring was not skipped or was last done for the same fields |
| `ReconcileWitness.EditGoesUnnoticed` | internal/controller/configsync_controller.go:350-356 | a file reference added at an unchanged commit: the reconcile ends Ready, the workload untouched, the reference not served |
| `ReconcileHistory.WiredMeansCarried` | internal/controller/configsync_controller.go:285-394 | with the wiring unedited and no other writer, in any run WorkloadWired set True means that the workload carries exactly Kohen's fields for the version |
| `ReconcileHistory.ReadyServesEveryReference` | internal/controller/configsync_controller.go:533-557 | in such a run Ready True means that the chosen container mounts the ConfigMap where the spec says and serves every reference |
| `ReconcileWitness.StampAloneReadsAsWired` | internal/controller/configsync_controller.go:350-356 | a workload with another manager's matching stamp and no field of Kohen's ends Ready |
| `ReconcileHistory.DegradationOverRuns` | internal/controller/secrets.go:46-98 | after any run the reported reason is AwaitingFirstResolution or MaxDegradedExceeded exactly under their history conditions |
| `ReconcileHistory.EstablishmentOverRuns` | internal/controller/configsync_controller.go:259-264 | the persisted flag of a reference is set if and only if a saved reconcile of the run resolved everything and reached the wire and every saved evaluation since lists the name |
| `ReconcileHistory.FlagOverStep` | internal/controller/secrets.go:36-111 | from any state and under any spec a flag stays while the name stays in the spec, and rises only in a saved reconcile that lists it, resolved everything and reached the wire |
| `Singleton.WinsOverIsOrder` | internal/controller/configsync_controller.go:525-530 | winsOver is a strict order, total on distinct names; the older wins, and of equal age the lexicographically lesser name |
| `Singleton.SingletonConflict` | internal/controller/configsync_controller.go:506-521 | reports a live winning rival if and only if there is one and the list call succeeded |
| `Singleton.ExactlyOneUnbeaten` | internal/controller/configsync_controller.go:506-530 | exactly one sync of any non-empty live set on a workload is unconflicted, and none of the set is older |
| `Singleton.LosersNeverWrite` | internal/controller/configsync_controller.go:132-140 | in every run of reconciles, finalizes, arrivals and departures around several workloads, whoever changes a workload targets it and has no live winning rival, unless its list call failed |
| `Singleton.OneWriter` | internal/controller/configsync_controller.go:506-530 | with a fixed set of syncs all writes of a run to one workload come from one and the same sync |
| `Singleton.FinalizeSparesExactly` | internal/controller/configsync_controller.go:462-479 | a complete finalize spares Kohen's fields on its workload, a successor's included, if and only if its list call succeeds and there is a live rival that wins over it |
| `Singleton.SuccessorStripped` | internal/controller/configsync_controller.go:513-516 | a live, unbeaten successor whose fields the older sync's finalize takes away |
| `Singleton.FailedListStrips` | internal/controller/configsync_controller.go:508-510 | a beaten sync whose failed list call lets its finalize strip the workload |
| `Singleton.BothUnconflicted` | internal/controller/configsync_controller.go:513-516 | an older sync under deletion and its live successor are both unconflicted |
| `Singleton.SuccessorCarriesExactly` | internal/controller/configsync_controller.go:350-378 | in auto mode an unbeaten sync whose WorkloadWired is set True leaves its own fields on the workload if and only if it wired just now or the workload, stamped already, carried them before |
| `Singleton.SuccessorReadyOverElder` | internal/controller/configsync_controller.go:350-356 | a successor at the elder's version ends Ready over the elder's fields, its reference not served |
| `Render.ValidateKey` | internal/render/render.go:340-361 | the ConfigMap key format |
| `Render.ValidKeyExactly` | internal/render/render.go:340-361 | between 1 and 253 characters of the alphabet, and not "." or ".." |
| `Render.ExcludedExactly` | internal/render/render.go:317-335 | a file is kept out exactly if the last component of its path begins with "kohen." or it is a manifest |
| `Render.Collect` | internal/render/render.go:225-312 | the walk stops at the first fault in walk order, else yields the included files in order |
| `Render.FaultExactly` | internal/render/render.go:225-312 | the reason reported is that of the first node at fault: an escaping link, an invalid key, or the key of an earlier file |
| `Render.Render` | internal/render/render.go:164-220 | raw check, the two maps, the total and the exact check |
| `Render.RenderExactly` | internal/render/render.go:164-220 | rendering succeeds if and only if the tree is safe and keyed, its raw size is at most 1 MiB and its exact size within the limit |
| `Render.OptionsExactly` | internal/render/render.go:117-138 | the default separator, and the limit with the margin taken off where it fits |
| `Render.EncodedLenExactly` | internal/render/render.go:194-219 | base64 takes four characters for every three bytes begun |
| `Render.CollectExactly` | internal/render/render.go:284-312 | collecting succeeds if and only if no link leaves the tree, all included keys are valid and the path-to-key map is injective on included files |
| `Render.RenderedIsBijection` | internal/render/render.go:194-219 | a success maps included files one to one onto the keys of disjoint data and binaryData, contents included, within the limit |
| `Render.RenderIgnoresOrder` | internal/render/render.go:222-224 | whether rendering succeeds, and its result, do not depend on walk order |
| `Render.DefaultSeparatorSeparates` | internal/render/render.go:28-31 | different paths never conflict under the default separator if no component contains "__" or ends with "_" |
| `Render.ConfusablePaths` | internal/render/render.go:299-309 | both exclusions are needed |
| `Render.EarlyRejectionExactly` | internal/render/render.go:182-192 | the early raw-size check can reject an acceptable tree if and only if the limit exceeds 1 MiB by at least two bytes |
| `Render.UsualOptionsNeverSpurious` | internal/render/render.go:125-138 | never for a maximum of at most 1 MiB and a margin that is not negative |
| `Redact.Redactor.Add` | internal/redact/redact.go:42-61 | registers every value and line that has at least five trimmed characters, and rebuilds when the set changed |
| `Redact.LinesExactly` | internal/redact/redact.go:46-48 | splitting cuts at every newline and nowhere else |
| `Redact.RegisteredExactly` | internal/redact/redact.go:42-56 | registered are exactly the values and their lines, trimmed, of five characters or more |
| `Redact.Redactor.Rebuild` | internal/redact/redact.go:64-70 | the replacer knows exactly the registered secrets, in any order |
| `Redact.Redactor.String` | internal/redact/redact.go:73-78 | left-to-right replacement that never looks back at what was written |
| `Redact.ApartNeverSurvives` | internal/redact/redact.go:73-78 | a secret that neither contains nor overlaps the placeholder, and is not part of it, survives in no output, whatever the other secrets and the priority |
| `Redact.RedactionExactly` | internal/redact/redact.go:73-78 | for secrets without brackets and any priority: none survives in any output if and only if none is part of the word REDACTED |
| `Redact.AddedNeverSurvives` | internal/redact/redact.go:42-61 | an added value, or any line of one, of at least five trimmed characters that does not overlap the placeholder never appears in any output |
| `RedactSets.SecretExactly` | internal/redact/redact.go:64-78 | among any other secrets, in any priority, a secret that does not hold the placeholder survives in no output if and only if it is not assembled |
| `RedactSets.SetExactly` | internal/redact/redact.go:64-78 | no secret of such a set ever survives if and only if none of them is assembled |
| `RedactSets.ContinuedAmongOthers` | internal/redact/redact.go:73-78 | a secret that continues the placeholder is completed after the secret of highest priority by any output that begins with its rest |
| `RedactSets.ShortInputSuffices` | internal/redact/redact.go:73-78 | for any secrets, one that survives in some output does so on an input of bounded length |
| `Redact.PartSurvives` | internal/redact/redact.go:19-23 | a secret that is part of the placeholder reappears in its own redaction, whatever the other secrets and the priority |
| `Redact.LoneSecretExactly` | internal/redact/redact.go:73-78 | a lone secret, brackets or not, survives in no output if and only if it is not completable |
| `Redact.ContinuedSurvives` | internal/redact/redact.go:73-78 | a lone secret that continues the end of the placeholder survives on itself followed by its rest |

## Left out

- FetchCache.Worktrees: goroutines share `cacheEntry` records by reference; here they share an index into `heap`, so an entry is never garbage collected.
- FetchProtocol: a failing `MkdirTemp` appears in `Enter` only, and a call retried after an error is a new call. Progress is that of the step system, in which every clone ends; no scheduler is modelled.
- FetchTheorems.CachedFetchRefinesUncached: needs checkout to be a function of the key, clones cut short aside, because the key carries the listed hash and the commit is what the clone returned; the uncached path's own temporary directory is not modelled.
- go-git cloning, ref listing, TLS, SSH, redirects, URL parsing and the symlink containment check: a clone is a nondeterministic outcome, the subpath checks one function of tree and path.
- ServerSideApply.Apply: fields are set by apply requests only; updates by PUT or PATCH, and managers' sub-resources, are not part of this model. Get followed by Patch is one step.
- Wiring.UniqueKeys: reference names, mount paths and env variables are unique, as the API enforces.
- Wiring.StampNoRestart: an absent workload is an error, because the API server would have to create an invalid object.
- Reconcile.Run: follows one workload; a spec edit that chooses another one is an `Outside` event that puts it in its place, and what becomes of the workload left behind is not followed.
- ReconcileRuns.OneRolloutPerChange: supposes that nobody else writes Kohen's fields and that the rollout mode stays auto.
- ReconcileHistory.ConfigNeverOlderThanStamp: supposes, outside runs in auto mode, that Kohen's stamps are its own (`Sound`): no other manager owns the template's, the stamp manager owns nothing else, the wire manager not the object's.
- SecretRuns.MaxDegradedExactly: condition times are integers other than 0; the truncation of stored times to seconds is not part of this model.
- Secrets.Established: a name listed twice in the stored status counts as established if either entry is; the API keeps names unique there.
- Version.VersionIdentity: SHA-256 is an arbitrary function of which only this is supposed: fixed length, and no collision on the two strings compared. Names hold no "=" and neither names nor tokens a NUL.
- Ownership: fields other managers add to objects Kohen owns, owner-reference garbage collection, and the error for a manifest that names another controller other than as a failing call.
- Manifests: YAML loading and the traversal that collects store references; a manifest carries its stores.
- Reconcile: adding and removing the finalizer, the sync-now annotation, messages, events, logging, metrics other than MaxDegradedExceededTotal, ObservedGeneration, and how rollout progress is computed from the workload's status.
- Singleton: creation times are integers; other managers' writes are left to Coexistence.
- Render: failing reads and stats, the file-system walk itself, YAML classification of manifests and the traversal guard of `consider`; a stat size is the content's length.
- Redact: characters stand for bytes and trimming knows ASCII white space only; locking and the log sink around `String`.
- RedactSets.SecretExactly: leaves out a secret that holds the text "[REDACTED]" itself, for which `ShortInputSuffices` bounds the inputs that decide.
- Text.Sort: `sort.Strings` as an insertion sort; only its result matters.
- ESO and native resolvers: an arbitrary resolution per reference.
- CRD and CEL validation, Helm chart, scripts, site and generated code.
