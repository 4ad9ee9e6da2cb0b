# chainctl, modelled and proved in Dafny

chainctl installs and upgrades an application on a k3s cluster. This project models the parts
of it whose correctness depends on many steps, many processes or all inputs at once, and
proves what the code and its documentation promise about them. `dafny verify dfyconfig.toml`
checks everything.

| files | what they model |
|---|---|
| `Tokens`, `Hex` | how a join token is issued, split and consumed; the in-memory store as an atomic specification |
| `ApiServer`, `KubeTokens`, `TokenRuns`, `TokenRefinement` | a versioned API server, the token calls that read, check and update one secret, all interleavings of any number of processes, and their refinement to the atomic store |
| `UpgradePlan` | create-or-update of the upgrade plan against the same server |
| `Paths` | `path/filepath` on Unix as a stack of components, and the guard on bundle entries |
| `Bundle` | unpacking a bundle into a file tree and checking its checksums |
| `StatePaths`, `StateWrite`, `WriteRuns` | where the state file lives, one write of it, and all interleavings of any number of writes |
| `AppRun` | install and upgrade: the Helm phase, then the state record |
| `Sanitizer`, `TextSanitizer` | redacting command lines and free text before they are logged |
| `FlagLayers`, `FlagConfig`, `FlagLoader`, `FlagCatalog`, `FlagBinder` | the configuration file: catalogue of commands and flags, typed loading, precedence, and writing the flags back |
| `Strings`, `Results` | Go string operations, Option and Result |

How the model is built:

- Code that changes state is a class or a method with a loop, proved against a function of the
  old state; what is promised stands on the method or in lemmas about that function. Ranging
  over a Go map is a loop that takes any remaining key.
- Interference is modelled twice. `KubeStore.Consume`, `KubeStore.Create` and `SubmitPlan` are
  methods that let other clients act between any two requests. `TokenRuns`, `UpgradePlan` and
  `WriteRuns` are state machines over all schedules, in which requests are dropped, replies are
  lost, steps fail and processes simply get no further steps.
- A Go string or byte slice is a Dafny string with one character per byte. Times are whole
  nanoseconds. SHA-256 is any function with a 32-byte result; no such function is free of
  collisions, so results about secrets name the collision they would need. Clock readings,
  random bytes, the environment and the outcome of every system call are inputs.

What the proofs found where code, documentation and expectation differ (the model follows the
code):

- `SanitizeText` is not idempotent for every text: a value longer than 128 characters is cut.
  `IdempotentIffNoCut` gives the exact condition, `CutExists` an input.
- `AssetPath` is documented as absolute; it is absolute only when the extraction directory is.
  What holds always is that it names the same file that was checked.
- The file name check of the state resolver lets `.` and `..` through, so a resolved path need
  not be a child of the directory (`NamedFileIsChildIff`, `DotNamesTheDirectory`,
  `DotDotIsAccepted`).
- An error of `Write` does not mean the old state file is still there: the last chmod comes after
  the rename (`AloneErrorTells`).
- A state file that does not exist yet and has the name of a possible temporary file can be seen
  half-written (`IntactIffGuarded`, `TempNamedTarget`).
- Helm can have succeeded without a state record: when the completion event cannot be written the
  phase reports an error, although the Helm call returned nil (`SuccessWithoutRecord`;
  `RecordedIffFinished` says exactly when there is one).
- `ForceExpire` can move an expiry forward (`ForceExpireMayMoveForward`); an expired token stays
  unusable all the same.
- Applying a valid file can fail with a type error when a flag's name has two types in the
  command tree. `TypeErrorIffClash` gives the exact condition, `TwoTypesClash` a file.
- A string slice given on the command line is written back on top of itself, so it ends with
  every item twice (`GivenListIsDoubled`); a list from the file reaches a `stringArray` flag as one
  item (`ArrayHoldsOneItem`).
- A `stringArray` flag given on the command line cannot be read back, because the string slice
  getter refuses it (`CollectRuntimeOverrides`).
- An argument such as `name=mytoken` is shown as it is, and the argument after it is redacted
  instead (`MarkerInPlainValue`).

## Model

| member | source | states |
|---|---|---|
| Hex.DecodeInvertsEncode | pkg/tokens/store.go:187-193 | lower-case hex loses nothing: decoding gives back the bytes |
| Hex.EncodeIsHex | pkg/tokens/store.go:187-193 | every encoded text consists of hex digits, so it holds no dot and no slash |
| Hex.EncodeAt | pkg/tokens/store.go:187-193 | each byte takes two digits, the upper half first |
| Tokens.SplitTokenIff | pkg/tokens/store.go:179-185 | a text splits into id and secret if and only if it is `id.secret` with two non-empty halves without dots |
| Tokens.HashIsTheDigest | pkg/tokens/store.go:195-198 | the stored hash is lower-case hex and decodes to the digest of `id:secret` |
| Tokens.HashesMeetIffDigestsDo | pkg/tokens/store.go:195-198 | two secrets of one id have the same stored hash if and only if the digests of their texts are the same: hex adds no collision |
| Tokens.GenerateToken | pkg/tokens/store.go:33-77 | an issued record is unconsumed, lives more than 0 and at most 24 hours, and carries the hash of the secret in the text handed out |
| Tokens.IssuedAsAsked | pkg/tokens/store.go:33-77 | a token is issued if and only if scope and life are allowed and randomness was there; scope, life, notes and id are those asked for and drawn |
| Tokens.MemoryStore.Create | pkg/tokens/store.go:120-131 | adds exactly the generated record under its id, or changes nothing |
| Tokens.MemoryStore.Consume | pkg/tokens/store.go:134-163 | is one atomic consume: checks in order, and only a success sets the one consumed flag |
| Tokens.MemoryStore.ForceExpire | pkg/tokens/store.go:166-177 | moves the expiry of the named record to one minute ago and nothing else |
| Tokens.RunsAreGenuine | pkg/tokens/store.go:120-177 | in every reachable store each record sits under its own id and holds the hash of the secret issued for it |
| Tokens.AcceptedIffPasses | pkg/tokens/store.go:134-163 | where records are genuine, acceptance is: the named record is usable and the digest does not tell the given secret from the issued one |
| Tokens.AcceptsExactlyTheIssued | pkg/tokens/store.go:134-163 | for every digest a reachable store accepts a text if and only if it is, byte for byte, the text issued for an unconsumed, unexpired record in scope, or holds another secret for such a record with the very same digest |
| Tokens.RefusalsMean | pkg/tokens/store.go:134-163 | each refusal occurs exactly for its own condition on the named record, in the order consumed, expired, scope, digest, and changes nothing |
| Tokens.RecordsOnlyAge | pkg/tokens/store.go:134-177 | over any later operations id, scope, hash and notes stay, the consumed flag never falls, and only ForceExpire moves the expiry |
| Tokens.ConsumedIsFinal | pkg/tokens/store.go:147-149 | after one success every later text for that id is answered with already consumed and changes nothing |
| Tokens.ExpiredStaysExpired | pkg/tokens/store.go:147-177 | under a clock that never runs backwards an expired record stays expired through any operations, ForceExpire included |
| Tokens.ExpiredStaysUnusable | pkg/tokens/store.go:150-152 | no consume of an expired record succeeds later |
| Tokens.ForceExpireMayMoveForward | pkg/tokens/store.go:166-177 | ForceExpire lengthens a life exactly when the record expired more than a minute ago |
| Tokens.ForceExpireEnds | pkg/tokens/store.go:166-177 | from ForceExpire on every text for the id is refused; only its expiry changed, and no other token did |
| Tokens.LifeIsBounded | pkg/tokens/store.go:37-54 | without ForceExpire every record in every reachable store expires within 24 hours of its issue |
| ApiServer.UpdateIsCompareAndSwap | pkg/tokens/kube_store.go:177-183 | an update with the version it read is served if and only if the object is still the very one that was read, whatever others did in between |
| ApiServer.SecondUpdateFromOneRead | pkg/tokens/kube_store.go:177-183 | of two updates from one read the second is served exactly when it carries no version: one-time use rests on the version alone |
| KubeTokens.KubeStore.Create | pkg/tokens/kube_store.go:69-118 | under interference: a success added exactly one secret under the token's name, with its labels, its annotations key by key and its record, and left all others; an error added nothing or is a lost reply |
| KubeTokens.KubeStore.FetchChecked | pkg/tokens/kube_store.go:121-165 | the read half under interference: the object as read with a record that passes every check, or the verdict on what was read |
| KubeTokens.KubeStore.Consume | pkg/tokens/kube_store.go:121-184 | under interference: a success sets the record's flag and adds one annotation with its own clock reading, and leaves every other annotation, label, datum and object; it is the lone consume made at the update, a rejection the lone answer at the read, a conflict means another write came between and changes nothing, an unavailable answer needs a lost request or reply and was the whole consume or nothing |
| KubeTokens.AloneMarksOnly | pkg/tokens/kube_store.go:167-183 | the lone consume marks the one secret and nothing else of it, and leaves every other object |
| KubeTokens.CheckRefuses | pkg/tokens/kube_store.go:134-165 | each refusal of a secret that was read has its own condition, in the order missing record, undecodable, consumed, expired, scope, digest |
| KubeTokens.ViewAt | pkg/tokens/kube_store.go:186-188 | reading a token server as a store finds the record of an id exactly under its secret name |
| KubeTokens.ViewAfterPut | pkg/tokens/kube_store.go:186-188 | writing one secret changes the store at that id and nowhere else |
| KubeTokens.AloneIsAtomic | pkg/tokens/kube_store.go:134-181 | without interference the Kubernetes consume and the atomic consume agree in verdict and effect |
| TokenRuns.RunsKeepInv | pkg/tokens/kube_store.go:69-184 | the invariant of all interleavings: what every client holds is current or older than the stored object, and no token has two winners |
| TokenRuns.UpdateServed | pkg/tokens/kube_store.go:177-183 | an update in a run is served exactly when the secret is still the copy the call read |
| TokenRuns.AtMostOneConsumeSucceeds | pkg/tokens/kube_store.go:121-184 | in every interleaving, lost replies included, at most one consume of an issued token returns nil |
| TokenRuns.TokensOnlyAge | pkg/tokens/kube_store.go:152-181 | between any two moments of any run id, scope, expiry and hash of a stored token, its labels, all annotations but consumedAt and all data but the record are fixed; consumed never reverts, consumedAt never changes once set and is there if and only if the record is consumed |
| TokenRuns.ConsumingStepStamps | pkg/tokens/kube_store.go:152-183 | in every run the step that consumes a token is the update of a consume of its id, and consumedAt is that call's clock reading to the second |
| TokenRefinement.WriteIsAtomicConsume | pkg/tokens/kube_store.go:152-184 | an update that finds its copy still stored is the atomic consume with the call's own clock reading |
| TokenRefinement.UpdateTakesOrLeaves | pkg/tokens/kube_store.go:179-183 | whatever the network does, an update is the whole atomic consume exactly when it arrives and its copy is current, and leaves the server alone otherwise; a conflict means the copy was not current |
| TokenRefinement.WriteIsAtomicCreate | pkg/tokens/kube_store.go:69-118 | a served create is the atomic create |
| TokenRefinement.RefinesAtomicStore | pkg/tokens/kube_store.go:69-184 | after every run the server, read as a store, is the atomic store after the operations that took effect, in order |
| TokenRefinement.EveryCallIsExplained | pkg/tokens/kube_store.go:121-184 | every finished call, at its decisive step: a success took effect at its update, a rejection is the atomic answer at its get, a conflict or lost request did nothing at its update, a lost reply did nothing or everything there |
| TokenRefinement.SuccessMeansIssuedText | pkg/tokens/kube_store.go:121-184 | for every digest: a consume that succeeds in any run named a token in scope, at most 24 hours after its issue and unconsumed until the step of the call's own update, and was given exactly the issued text or another secret with the same digest |
| UpgradePlan.ControllerClient.SubmitPlan | pkg/upgrade/controller.go:87-106 | under interference: success leaves the one plan with exactly the submitted version as its spec, keeping what it held beside it or being a bare plan, and no other object changed; an error left everything alone or is a lost reply to that write, and each error has its cause |
| UpgradePlan.RunsKeepInv | pkg/upgrade/controller.go:87-106 | in every run a held copy is the stored object or older than it |
| UpgradePlan.CurrentIffUntouched | pkg/upgrade/controller.go:96-105 | a copy that was read is the stored object exactly as long as no step of the run has touched the plan since |
| UpgradePlan.StaleUpdateChangesNothing | pkg/upgrade/controller.go:96-105 | an update takes effect if and only if it arrives and no step since the call's own read wrote, created or deleted the plan; otherwise it changes nothing |
| UpgradePlan.RestSurvives | pkg/upgrade/controller.go:96-105 | no submission in any run touches what lies outside the spec of an existing plan |
| UpgradePlan.NilMeansItTookHold | pkg/upgrade/controller.go:87-106 | each submission that returns nil has a moment within the call at which the stored spec is its own |
| Paths.CleanIsNormal | pkg/bundle/bundle.go:219-224 | a cleaned path is any number of `..` (none under the root) followed by names, and reads back as that |
| Paths.CleanIdempotent | pkg/bundle/bundle.go:219-224 | cleaning twice is cleaning once |
| Paths.CleanSteps | pkg/bundle/bundle.go:219 | appending a name appends a component, `.` and empty ones change nothing, and `..` takes the last name back, is dropped under the root and kept elsewhere |
| Paths.StartsUpIffClimbsOut | pkg/bundle/bundle.go:219-224 | a relative name cleans to one that starts with `..` if and only if some prefix of it climbs above its start |
| Paths.WalkOfReduced | pkg/bundle/bundle.go:86-89 | below a directory it makes no difference whether a relative path was cleaned on its own first |
| Paths.RelBelow | pkg/bundle/bundle.go:230-237 | the relative path from a directory to something below it is the part below, so the second check never rejects |
| Paths.LocateOfClean | internal/state/resolver.go:54 | cleaning a path does not change the place it names |
| Paths.SafeJoinIff | pkg/bundle/bundle.go:213-239 | safeJoin succeeds if and only if the name is relative and does not climb out; the result is clean and equal to or below the base |
| Paths.AssetPathMeansTheSameFile | pkg/bundle/bundle.go:86-89 | for every accepted name AssetPath and safeJoin name the same place in the file tree |
| Paths.DirOfRender | pkg/bundle/bundle.go:176-180 | the directory of a clean absolute path is its parent |
| Paths.DirDropsTheLast | pkg/bundle/bundle.go:96-98 | the directory of `dir/name` is the cleaned dir, that of a bare name is `.` |
| Bundle.SamePlaceIffSameCleanedName | pkg/bundle/bundle.go:159-191 | two accepted entries write one file if and only if their cleaned names agree |
| Bundle.LastWriterWins | pkg/bundle/bundle.go:133-156 | after unpacking, a file holds the very body of the last entry for its place |
| Bundle.UnwrittenStays | pkg/bundle/bundle.go:133-156 | a place no entry writes is as it was |
| Bundle.SomeLastWriter | pkg/bundle/bundle.go:133-156 | every place that is written has a last writer |
| Bundle.TreeBelowRoot | pkg/bundle/bundle.go:133-156 | below the extraction directory files exist exactly where entries write, with the body of the last one |
| Bundle.ManifestIsTheLast | pkg/bundle/bundle.go:182-185 | the manifest is the body of the last entry named exactly bundle.yaml, and there is none without one |
| Bundle.DirsAreNeeded | pkg/bundle/bundle.go:159-180 | the directories made are exactly those on the way to a directory entry or to the parent of any other |
| Bundle.ExtractEntry | pkg/bundle/bundle.go:159-191 | one accepted entry writes its own body at its cleaned name below the root, or only hands the manifest body back, or only makes a directory; nothing outside the root is touched |
| Bundle.ExtractTarToDir | pkg/bundle/bundle.go:133-156 | on success every place holds the body of the last entry for it and all others are as before, and the manifest was parsed from the last bundle.yaml; a broken archive, a missing and an invalid manifest are reported for that cause; on failure nothing outside the root was touched |
| Bundle.ValidateChecksums | pkg/bundle/bundle.go:194-211 | in any order of the map: success means every listed file exists with its digest; a mismatch names a listed file that does not have it, an unreadable asset is a listed name inside the bundle, and an outside error means some listed name is outside |
| Bundle.ExtractDirIsChild | pkg/bundle/bundle.go:105-107 | the extraction directory is the child of the cache root named by the archive's digest |
| Bundle.AssetIsWhereChecked | pkg/bundle/bundle.go:86-89 | the file at AssetPath is the file whose checksum was compared |
| Bundle.Load | pkg/bundle/bundle.go:92-130 | on every path either nothing changes or the root is the cache root's child named by the digest of the archive read, and files outside it stay as they are; on success the files below it are exactly the archive's, each with the body of its last entry, the manifest is that of the last bundle.yaml, and every checksum agrees, letter case aside, with the digest of the file at AssetPath |
| StatePaths.DirectoryIsCleanAbsolute | internal/state/resolver.go:45-61 | the effective directory is absolute and clean |
| StatePaths.ResolvedPathIsFixed | internal/state/resolver.go:33-72 | every accepted override gives an absolute clean path that resolves to itself in any environment |
| StatePaths.FilePathIsObeyed | internal/state/resolver.go:38-43 | an accepted file path override resolves to the very place it names |
| StatePaths.DirectoryIsObeyed | internal/state/resolver.go:45-61 | the effective directory is the place the directory override names |
| StatePaths.DefaultDirectoryIs | internal/state/resolver.go:99-113 | without overrides the directory is chainctl/state below XDG_CONFIG_HOME, else .chainctl/state below the home directory, else an error |
| StatePaths.DefaultFileIs | internal/state/resolver.go:63-71 | without a file name the state is app.json directly in the directory |
| StatePaths.InvalidNames | internal/state/resolver.go:74-97 | exactly these names are refused: empty, with a slash, backslash or control character, or a device name in any letter case, alone or before a dot |
| StatePaths.RefusedOverrides | internal/state/resolver.go:33-72 | each error of Resolve occurs exactly for its own combination of overrides |
| StatePaths.LaterWriteFindsThePath | cmd/chainctl/app/action.go:366-379 | once a run has resolved its overrides, the state manager finds that same path |
| StatePaths.NamedFileIsChildIff | internal/state/resolver.go:63-97 | an accepted file name lands directly in the directory if and only if it is neither `.` nor `..` |
| StatePaths.DotDotIsAccepted | internal/state/resolver.go:74-97 | `..` passes the file name check |
| StatePaths.DotNamesTheDirectory | internal/state/resolver.go:63-97 | `.` passes it too and resolves to the directory itself |
| StateWrite.Folder.WriteStateFile | pkg/state/state.go:126-155 | whatever step fails or stops the call, the target is what it was or the complete record and the ending tells which; no other file changes, and the temporary file is gone when the call returned and its remove worked |
| StateWrite.AloneWritesAllOrNothing | pkg/state/state.go:126-155 | every file but the temporary one is as before, except that the target is the complete record exactly when the rename took place |
| StateWrite.AloneErrorTells | pkg/state/state.go:126-155 | nil or an error of the last chmod means the rename took place, any other error means it did not |
| StateWrite.NilIff | pkg/state/state.go:126-155 | a write returns nil if and only if it reached its rename, the last chmod worked and it was not stopped |
| StateWrite.TempNamesShow | pkg/state/state.go:126-127 | a temporary name is state-, digits, .json |
| WriteRuns.RunsKeepInv | pkg/state/state.go:126-155 | in every interleaving no two calls share a temporary file, and a file that is about to be renamed is complete |
| WriteRuns.TargetStep | pkg/state/state.go:126-155 | one step of any call changes the target only by its own rename, to its complete record |
| WriteRuns.TargetIsLastRename | pkg/state/state.go:126-155 | at every moment of every run the target is its initial content or the complete record of the last call that renamed |
| WriteRuns.NoRenameSoFar | pkg/state/state.go:126-155 | a call that is not past its rename, whether it failed, stopped or is under way, has made none in the whole run |
| WriteRuns.FailedCallLeftTargetAlone | pkg/state/state.go:126-155 | no step of a call that failed or stopped before its rename changed the target |
| WriteRuns.ReturnLeavesNoTemp | pkg/state/state.go:126-155 | a call that returned leaves no temporary file unless its remove failed |
| WriteRuns.IntactIffGuarded | pkg/state/state.go:126-155 | the target is never seen incomplete in any run if and only if it existed at first or does not have a temporary file's name |
| WriteRuns.DefaultNameIsGuarded | internal/state/resolver.go:63-66 | the default app.json meets the condition in every directory |
| WriteRuns.TempNamedTarget | pkg/state/state.go:126-133 | a missing target with a temporary file's name is seen empty in some run |
| WriteRuns.LoneRunIsTheCall | pkg/state/state.go:126-155 | a run of one call, cut off anywhere, leaves the files that the call taken as one function leaves for some fates of its steps |
| AppRun.Machine.EmitPhase | pkg/telemetry/emitter.go:75-121 | no callback without a start event, never two callbacks; success only with a nil callback between both events, a callback error only with the failure event |
| AppRun.PhaseCallsHelmOnce | pkg/telemetry/emitter.go:75-121 | the callback is called exactly when the start event was written, never twice; success means both events and a nil callback |
| AppRun.Machine.PersistState | cmd/chainctl/app/action.go:262-275 | success means the whole record of the request, field by field, is in the file the overrides name; no other file changed, and no Helm call was made |
| AppRun.Machine.RunAppAction | cmd/chainctl/app/action.go:82-136 | Helm is called at most once; success means it returned nil and the state file holds release, namespace, endpoint, chart, version, action and stamp of this run; any file that changed is that file after such a call; an error about the state path leaves everything alone |
| AppRun.OneRun | cmd/chainctl/app/action.go:113-135 | a state file changes only when the run made one Helm call that returned nil, and then holds the full record |
| AppRun.RunPromise | cmd/chainctl/app/action.go:82-136 | the same for the run taken as one function, for every fate of every part |
| AppRun.RecordTells | cmd/chainctl/app/action.go:251-260 | each field of the record is the one of the profile, source, action and options; the version is the given one, else what follows the last colon of an oci reference, else empty |
| AppRun.EarlyErrors | cmd/chainctl/app/action.go:82-111 | missing inputs are reported in order, before anything happens |
| AppRun.SucceedsIff | cmd/chainctl/app/action.go:82-136 | a run succeeds if and only if it reaches the record and neither the last chmod nor the output fails |
| AppRun.SuccessWithoutRecord | pkg/telemetry/emitter.go:99-118 | when the completion event fails after a nil Helm call, nothing is written |
| AppRun.RecordedIffFinished | cmd/chainctl/app/action.go:124-135 | after a Helm call that returned nil the record is written if and only if the completion event was, there is a state manager and the write reached its rename; otherwise the file is as before |
| AppRun.StateFileTellsTheTruth | cmd/chainctl/app/action.go:113-135 | over any sequence of runs with any failures the state file is its initial content or the record, field by field, of the last recorded run, whose Helm call was made once and returned nil |
| AppRun.NoPathErrorAfterHelm | cmd/chainctl/app/action.go:94-129 | once Helm has been called no error about the state path can occur |
| AppRun.OrdinaryNamesAreAway | pkg/state/state.go:126-133 | a state file that does not exist yet meets the condition of these results when its name is not one of a temporary file |
| Sanitizer.SanitizeSetExpressions | internal/cli/logging/sanitizer.go:141-157 | the loop that overwrites pairs in place rewrites every pair on its own and nothing else |
| Sanitizer.SanitizeCommand | internal/cli/logging/sanitizer.go:29-54 | the loop with its pending transform is the one-argument look-ahead transducer, joined with blanks; what that shows and hides is stated by the members below |
| Sanitizer.FlagWords | internal/cli/logging/sanitizer.go:159-166 | a flag is sensitive if and only if password, passphrase, token, secret or credential occurs in it, in any letter case |
| Sanitizer.KeyWords | internal/cli/logging/sanitizer.go:168-176 | a key or value is sensitive if and only if one of its six words occurs in it, in any letter case |
| Sanitizer.CapitalsMakeNoDifference | internal/cli/logging/sanitizer.go:159-176 | text in capitals gets the same verdicts |
| Sanitizer.FlagWordRedactsNext | internal/cli/logging/sanitizer.go:67-69 | in every list a plainly read argument without `=` that holds a flag word is followed by `***` |
| Sanitizer.InlineValueIsHidden | internal/cli/logging/sanitizer.go:92-96 | in every list flag=value shows `***` for a flag with a flag word, and for a long flag with a key word in its value |
| Sanitizer.SetFlagRewritesNext | internal/cli/logging/sanitizer.go:74-81 | after --set and --set-string in any letter case the next argument is rewritten pair by pair |
| Sanitizer.PairIsHidden | internal/cli/logging/sanitizer.go:143-155 | a pair shows `***` exactly for a key word in its key or value |
| Sanitizer.PairFixedIffClean | internal/cli/logging/sanitizer.go:143-155 | a pair is left alone if and only if it shows no value under a sensitive key and no sensitive value; the result is always such a pair |
| Sanitizer.SetFixedIffClean | internal/cli/logging/sanitizer.go:141-157 | a --set expression is left alone if and only if all its pairs are clean, and its result is clean |
| Sanitizer.HarmlessSet | internal/cli/logging/sanitizer.go:97-98 | a value without any marker passes the --set rewriting unchanged |
| Sanitizer.InlineReads | internal/cli/logging/sanitizer.go:83-102 | an inline assignment is redacted if and only if the flag is sensitive or a long flag has a sensitive value; the third arm is the identity |
| Sanitizer.ArgFixedIffClean | internal/cli/logging/sanitizer.go:56-72 | one argument comes out clean, unchanged if and only if it was clean, and a second pass gives the same argument and follow-up |
| Sanitizer.FollowUpIs | internal/cli/logging/sanitizer.go:56-81 | which arguments have the next one rewritten or redacted, and which do not |
| Sanitizer.MarkerInPlainValue | internal/cli/logging/sanitizer.go:56-72 | `name=mytoken next` keeps the first argument and redacts the second |
| Sanitizer.ResultIsSanitized | internal/cli/logging/sanitizer.go:29-54 | for every argument list the result has nothing left to redact, and a list is left as it is if and only if that already holds of it |
| Sanitizer.SanitizeIsIdempotent | internal/cli/logging/sanitizer.go:29-54 | sanitizing twice is sanitizing once, trailing placeholder included |
| Sanitizer.SameResultIffAlike | internal/cli/logging/sanitizer.go:29-102 | two argument lists give the same result if and only if they differ in redacted positions only |
| Sanitizer.NothingRedactedShows | internal/cli/logging/sanitizer.go:29-54 | such lists are logged as the same text |
| Sanitizer.RestIsKept | internal/cli/logging/sanitizer.go:29-54 | the result differs from the arguments in redacted positions only |
| TextSanitizer.HereIffMatch | internal/cli/logging/sanitizer.go:125 | the scan sees a match if and only if the text starts with a keyword, `=` and a non-blank |
| TextSanitizer.FoundIsLongest | internal/cli/logging/sanitizer.go:125 | a match takes 1 to 128 non-blanks and stops early only at a blank or the end |
| TextSanitizer.Keywords | internal/cli/logging/sanitizer.go:125 | the keywords are the six words in any letter case |
| TextSanitizer.BlankEndsValue | internal/cli/logging/sanitizer.go:125-139 | a value is replaced up to the first space, tab, line or page break, and the text from there on is sanitized on its own |
| TextSanitizer.ResultIsMasked | internal/cli/logging/sanitizer.go:125-139 | for every text, wherever the result has a keyword, `=` and a non-blank, the placeholder follows the `=` |
| TextSanitizer.IdempotentIffNoCut | internal/cli/logging/sanitizer.go:125-139 | a second pass changes nothing if and only if no match was cut at 128 characters; a cut makes the second result shorter |
| TextSanitizer.ShortRunsAreNotCut | internal/cli/logging/sanitizer.go:125 | non-blank runs of at most 128 characters are never cut |
| TextSanitizer.CutExists | internal/cli/logging/sanitizer.go:125 | a value of 129 characters is cut |
| TextSanitizer.OnlyValuesChange | internal/cli/logging/sanitizer.go:132-138 | text and result are the same pieces in the same order; only the values of matches differ |
| TextSanitizer.SamePiecesAgain | internal/cli/logging/sanitizer.go:132-138 | without a cut the second scan finds the same matches at the same places |
| TextSanitizer.NoNewMatch | internal/cli/logging/sanitizer.go:132-138 | replacing later values neither creates nor removes a match in front of them |
| FlagLayers.LastLayerDecides | pkg/config/resolver.go:74-88 | a flag has the value and source of the last layer that defines it |
| FlagLayers.SetIffDefined | pkg/config/resolver.go:74-88 | a flag is resolved if and only if some layer defines it |
| FlagLayers.LineNamesTheNearest | pkg/config/resolver.go:83-85 | an override line is there if and only if its layer redefines the name, and it names the source of the nearest earlier layer |
| FlagLayers.NothingIsLost | pkg/config/resolver.go:74-88 | override lines plus resolved flags are as many as the entries of all layers together |
| FlagLayers.SameLines | pkg/config/resolver.go:78-87 | the multiset of lines does not depend on the order in which maps are visited |
| FlagConfig.FlagSet.Clone | pkg/config/profile.go:27-36 | a new map with the same entries |
| FlagConfig.CloneSection | pkg/config/profile.go:52-65 | a section with a new map, never nil, and the same contents |
| FlagConfig.ValidateCommandSection | pkg/config/resolver.go:40-52 | a nil profile and an unknown command are not declared, a disabled one is refused, any other section is returned |
| FlagConfig.FlagApplier.Apply | pkg/config/resolver.go:74-88 | in any order of the map: the layer is put on top and exactly one line is appended for each name set before |
| FlagConfig.ApplyProfileSections | pkg/config/resolver.go:90-102 | all listed profiles are put on in order, or the first undefined one is reported |
| FlagConfig.SanitizeRuntimeOverrides | pkg/config/resolver.go:104-116 | a new map with empty sources filled in; the argument is not touched |
| FlagConfig.ResolveInvocation | pkg/config/resolver.go:19-38 | flags and lines are those of defaults, profiles, command and runtime in this order; everything returned is new and the inputs are unchanged; errors exactly as listed |
| FlagConfig.LayersAre | pkg/config/resolver.go:19-38 | the layers are defaults, the listed profiles in order, the command and the run-time flags, each under the name that its lines show |
| FlagConfig.ResolvedFlagsAreTheLookup | pkg/config/resolver.go:19-38 | merging map after map is the layered lookup: runtime, else command, else last listed profile, else default |
| FlagLoader.CoerceStringSlice | internal/config/loader.go:236-255 | a list is taken if and only if every item has a text form, with one text for each item at its place; a single text is a list of its trimmed form; nothing else is taken |
| FlagLoader.CoercedHasType | internal/config/loader.go:206-219 | an accepted value has the type that was asked for |
| FlagLoader.CoercedIffStandsFor | internal/config/loader.go:206-270 | what each raw value becomes: bools stay, six spellings each say true and false after trimming, text stays, numbers and Stringers print, lists keep their items |
| FlagLoader.TypedIff | internal/config/loader.go:159-193 | an entry is accepted if and only if its name is not sensitive, the catalogue knows it and some value of its type stands for it |
| FlagLoader.SensitiveNames | internal/config/loader.go:195-204 | a name is sensitive if and only if one of five words occurs in it, in any letter case |
| FlagLoader.Loader.BuildFlagSet | internal/config/loader.go:159-193 | in any order of the map: it succeeds if and only if every entry is acceptable, with one typed value each, and an error is that of some entry |
| FlagLoader.Loader.PopulateDefaults | internal/config/loader.go:88-98 | the defaults are set, and nothing else of the profile |
| FlagLoader.Loader.PopulateProfiles | internal/config/loader.go:100-109 | all profiles or an error naming one that is refused |
| FlagLoader.Loader.PopulateCommands | internal/config/loader.go:111-131 | every non-blank key has a section under its trimmed path and every section comes from such a key; blank keys are skipped; an unknown command is refused |
| FlagLoader.Loader.Load | internal/config/loader.go:39-58 | loading succeeds if and only if all three parts are acceptable; then every value in the profile stands for the file's entry of that name, and profiles and disabled are those of the file; an error has its cause in the file |
| FlagLoader.LoadedIsWellTyped | internal/config/loader.go:159-193 | no loaded profile holds a sensitive flag, an unknown flag or a value of the wrong type |
| FlagLoader.LoadedStandsForTheFile | internal/config/loader.go:88-131 | everything in a loaded profile stands for what the file says, under the same names |
| FlagCatalog.Append | internal/config/cobra_catalog.go:45 | append writes at the end of the slice or into a new array, never below |
| FlagCatalog.TraverseCommands | internal/config/cobra_catalog.go:44-71 | although siblings share one backing array, the caller's words survive and the catalogue records the pre-order entries |
| FlagCatalog.OwnShadowsInherited | internal/config/cobra_catalog.go:49-55 | a command has the flags it inherits or declares, and its own shadow inherited ones |
| FlagCatalog.OwnFlagTypes | internal/config/cobra_catalog.go:95-104 | bool is a bool, slices and arrays are lists, and everything else is text |
| FlagCatalog.NewCobraCatalog | internal/config/cobra_catalog.go:35-42 | the catalogue of a tree is the record of its pre-order |
| FlagCatalog.ListedIffReached | internal/config/cobra_catalog.go:66-70 | a command is listed if and only if it is reached without passing a hidden one |
| FlagCatalog.PreOrderIsInOrder | internal/config/cobra_catalog.go:66-70 | each is listed once, parents before children and siblings in order |
| FlagCatalog.OrderListsThePaths | internal/config/cobra_catalog.go:58-93 | Commands() is the list of their paths in that order |
| FlagCatalog.IndexHoldsTheFirst | internal/config/cobra_catalog.go:60-89 | AnyFlagType is the type at the first command in pre-order that has the flag, and none if there is no such command |
| FlagCatalog.CommandsHoldTheLast | internal/config/cobra_catalog.go:57-84 | a path shared by several commands stands for the last of them |
| FlagCatalog.AnswersAgree | internal/config/cobra_catalog.go:78-89 | with one type for a name every answer about it is that type |
| FlagBinder.CollectRuntimeOverrides | cmd/chainctl/declarative/binder.go:152-170 | exactly the given flags other than --config with their values; it fails if and only if one of them is neither bool, string nor string slice |
| FlagBinder.ApplyResolvedFlag | cmd/chainctl/declarative/binder.go:209-226 | touches its own flag only; --config is skipped, an unknown name becomes one warning |
| FlagBinder.ApplyResolvedFlags | cmd/chainctl/declarative/binder.go:172-179 | in any order of the map: success writes every resolved flag of the command and warns once for every other name; a type error names a value its flag cannot take |
| FlagBinder.FlagsHoldTheLookup | cmd/chainctl/declarative/binder.go:61-92 | after success every bool or string flag holds its runtime value, else the command's, else the last listed profile's, else the default, else what it held before |
| FlagBinder.FlagsHoldTheFile | cmd/chainctl/declarative/binder.go:61-92 | said of the file: a bool or string flag that was not given holds what the deciding entry says, the command's, else the last listed profile's, else the default |
| FlagBinder.ReadBackIffPlain | cmd/chainctl/declarative/binder.go:235-242 | without quotes and line ends in it, a list written with commas is read back as it was if and only if no item holds a comma and it is not one empty item |
| FlagBinder.ListsHoldTheLookup | cmd/chainctl/declarative/binder.go:172-242 | after success a string slice that was not given holds the looked-up list exactly when that is such a list, a given one holds its items twice, and a string array holds the list joined to one item |
| FlagBinder.GivenListIsDoubled | cmd/chainctl/declarative/binder.go:209-226 | a list given on the command line keeps its value if and only if it is empty |
| FlagBinder.ArrayHoldsOneItem | cmd/chainctl/declarative/binder.go:235-242 | a string array holds the resolved list if and only if that has one item |
| FlagBinder.ListsHoldTheFile | cmd/chainctl/declarative/binder.go:61-92 | the same said of the deciding entry of the file |
| FlagBinder.OneTypeAgrees | cmd/chainctl/declarative/binder.go:31-37 | one type across the tree for each exposed flag (bool or list, not sensitive, not given at run time) excludes every clash |
| FlagBinder.NoTypeError | cmd/chainctl/declarative/binder.go:228-245 | without a clash no loaded and resolved value is one its flag cannot take |
| FlagBinder.TypeErrorIffClash | cmd/chainctl/declarative/binder.go:228-245 | some file that loads and resolves gives a flag a value it cannot take if and only if a file can have a section for the command and one of its exposed flags has another type in the catalogue |
| FlagBinder.TwoTypesClash | cmd/chainctl/declarative/binder.go:228-245 | an instance: for a tree with a bool and a string slice of one name, a file with one default loads, resolves and does not fit the second command |
| FlagBinder.Manager.Apply | cmd/chainctl/declarative/binder.go:61-92 | read, load, resolve and write back together: flags that were not given hold what an enabled section of the file says for them, --config is left alone, no type error without a clash, a cause for each error, and success whenever the given flags are readable, the file loads and resolves without a clash, and pflag takes what is written |

## Left out

- Cobra and pflag parsing, Helm, client-go, OpenTelemetry, the tar reader, YAML, JSON, RFC 3339 and SHA-256 themselves: foreign code, kept as abstract functions or as the contracts stated at their use.
- pkg/secrets: with the cipher taken as given only fixed-offset slicing remains.
- cmd/chainctl/cluster, cmd/chainctl/node, pkg/bootstrap and pkg/helm: straight-line command flows.
- Workflow log entries of a run and the summary of a resolved file: output only. The profile and the chart of a run are inputs that may be missing.
- EnsureController, SanitizeEnv, LocateConfig and the validation of option values: single branches or plain I/O.
- File modes and permissions, symbolic links, Windows volume names and loss of power (the code does not sync): not modelled.
- Deletion of a token secret by somebody else: no code in the repository deletes one.
- Unicode: letters are folded in the ASCII range and one character is one byte, in the sanitizers as well.
- Records and map entries are values in `Tokens.MemoryStore`, not references; the source never hands one out.
- FlagBinder.FlagTable.Set: says nothing about the final value of a flag that is neither bool, string, string slice nor string array. How pflag reads a comma-separated text is a parameter; the results about lists assume only what it does without quotes and line ends.
- FlagBinder.CollectRuntimeOverrides: flags are visited in any order rather than by name, so which of several unreadable flags is reported is left open.
- FlagLoader.Loader.PopulateCommands: keys that are equal after trimming are allowed, and which of them ends in the profile is left open, as it is in the code.
- FlagConfig.FlagApplier.Apply: an override line is kept as the three values it is formatted from, not as text; a warning is kept as the name of the ignored flag.
- WriteRuns.RunsKeepInv: assumes that a temporary name is not handed out twice during a run, because the deferred remove goes by name.
- Tokens.RecordsOnlyAge: speaks of operations that do not draw the same random id again.
