# gitr-backup reconciliation core, in Dafny

gitr-backup mirrors repositories from *source* hosts to *backup* hosts.
Either kind of host can be a GitHub or a Gitea server. A destination repository whose description carries the
`[backup]` marker names its source URL. On each run the tool does the following:

- It looks the URL's authority up in a table of source hosts.
- It labels the repository with the `gitr-backup` or `private` topic.
- It compares the destination's refs with the source's.
- It pushes the refs that moved and deletes the refs that vanished.

This project models that reconciliation logic and proves its laws.

| file | module | models |
|---|---|---|
| `wrappers.dfy` | `Wrappers` | `Option` and `Result` |
| `strings.dfy` | `Strings` | the Go `strings` functions the core uses (`HasPrefix`, `TrimPrefix`, `Contains`, `ReplaceAll`, `TrimSpace`, `TrimLeft`, `SplitN`) |
| `constants.dfy` | `Constants` | the marker and label constants |
| `repository.dfy` | `Repository` | `Ref`, `Branch` and `Branch.RefName` |
| `refdiff.dfy` | `Refdiff` | `refmapFromList`, `listFromRefmap`, `Refdiff`, `FullRefdiff`, `RefdiffResult.Len` |
| `config.dfy` | `Config` | `readEnvVar`, `Host.massageConfig`, `Config.massageConfig` (in place on an array of hosts) |
| `github.dfy` | `GitHub` | the base-URL guard of `NewGitHubClient` and the owner/name split of `GetRepositoryByUrl` |
| `gitea_repository.dfy` | `Gitea` | the topic cache of a Gitea repository (`ensureTopics`, `AddLabel`, `RemoveLabel`) as a class, and the paging rules of `ListRefs` |
| `sync_repository.dfy` | `SyncRepository` | `findRepositorySource`, `ensureLabel`, the changelog fold and gates of `processRepo`, the refspecs of `mirrorRefs`, `backupNewRepo` |
| `sync.dfy` | `Sync` | the prefix table and destination loop of `SyncHosts`, and `processDestination` |

Every foreign answer is an explicit parameter:

- The process environment is a `map`.
- `url.Parse` with the path cleared is the function parameter `urlKey`.
- The topic API is a `TopicApi`: the listing answer and the per-topic add/delete errors.
- The pages of the branch and tag listings are a sequence of pages.
- The output of the diff library is a sequence of `Delete | Update | Create` events.
- The outcome of the git transport is a `Transfer`.

The Gitea repository's topic cache is a class with the source's fields: `topics` and `topicsInitialized`. A ghost field records the topic API calls made.

Two files define the shared functions: `sync/sync.go` and `sync/repository.go` both define `findRepositorySource`, `ensureLabel` and `processRepo`. The model follows `sync/repository.go`, whose `findRepositorySource` records the source mapping. The mapping does not affect the result; `SyncRepository.ResolutionIndependentOfMapping` proves this for the `sync/sync.go` variant. `SyncHosts` and `processDestination` come from `sync/sync.go`. The model gives each destination a fresh, empty source mapping.

`repository.Ref` is used but never declared in the repository. It is defined here from its uses, with fields `Name`, `Sha` and `RefName`.

## Model

| member | source | states |
|---|---|---|
| Strings.HasPrefixIffSplit | sync/repository.go:122 | `HasPrefix` holds exactly when the string is the prefix followed by the rest |
| Strings.TrimPrefix | vcs/github.go:83 | with the prefix, prefix + result is the input; without it, the input is returned as is |
| Strings.PrefixThenTrim | config/config.go:41-42 | trimming a prefix that is there gives back the rest |
| Strings.Contains | sync/repository.go:72-73 | a string contains a pattern no longer than itself, and contains every pattern it starts with |
| Strings.ContainsIffOccurs | sync/repository.go:72-73 | `Contains` holds exactly when the pattern occurs at some index |
| Strings.ContainsAfterPrefixWithout | sync/repository.go:72-73 | a prefix lacking the pattern's first character neither adds nor hides an occurrence |
| Strings.RemoveAll | sync/repository.go:77 | `ReplaceAll(s, pat, "")` never lengthens, leaves a string without the pattern unchanged, and removes at least one pattern's length from a string holding it |
| Strings.RemoveAllDeletesOnly | sync/repository.go:77 | the result's characters, with their counts, are among the input's |
| Strings.RemoveAllLeading | sync/repository.go:77 | removing every occurrence drops a leading occurrence |
| Strings.TrimSpace | sync/repository.go:77 | the result neither starts nor ends with white space |
| Strings.TrimSpaceIsTrimmedSlice | sync/repository.go:77 | the result is a slice of the input with only white space before and after it |
| Strings.TrimSpaceSkipsLeadingSpace | sync/repository.go:77 | leading white space does not change the trimmed result |
| Strings.TrimLeftChar | vcs/github.go:83 | the result is a suffix starting with a character other than the trimmed one, and every removed character is that one |
| Strings.CountCharZero | vcs/github.go:83-86 | a string has no separator exactly when its separator count is zero |
| Strings.IndexOfChar | vcs/github.go:83 | the index found holds the character and none before it does; with no index, the character is absent |
| Strings.SplitN | vcs/github.go:83 | at most n parts, which join back to the input; no part but the last holds the separator, nor the last when fewer than n parts |
| Repository.Branch.RefName | vcs/repository/repository.go:13-15 | the result starts with `refs/heads/`, and stripping that prefix gives back the name |
| Repository.RefNameIgnoresSha | vcs/repository/repository.go:13-15 | the ref name does not depend on the SHA |
| Repository.RefNameInjective | vcs/repository/repository.go:13-15 | two branches have the same ref name exactly when they have the same name |
| Refdiff.RefMap | sync/refdiff.go:10-16 | every entry is filed under its own qualified ref name |
| Refdiff.RefMapContents | sync/refdiff.go:10-16 | every ref's name is a key, every key comes from some ref, and the last occurrence of a name is the one kept |
| Refdiff.RefmapFromList | sync/refdiff.go:10-16 | the loop builds exactly `RefMap` |
| Refdiff.ListFromRefmap | sync/refdiff.go:18-24 | the list holds each value of the map exactly once, in some key order |
| Refdiff.CollectDeleted | sync/refdiff.go:41-45 | the loop over the destination map yields exactly the destination entries absent from the source |
| Refdiff.CollectChanged | sync/refdiff.go:47-52 | the loop over the source map yields exactly the source entries that are new or whose SHA differs |
| Refdiff.Refdiff | sync/refdiff.go:33-58 | the two lists enumerate the changed and deleted maps, and the length is zero exactly when both sides agree name for name and SHA for SHA |
| Refdiff.RefdiffResult.Len | sync/refdiff.go:60-62 | the length is zero exactly when both lists are empty, and bounds each list's length |
| Refdiff.LenZeroIffInSync | sync/refdiff.go:60-62 | nothing changed and nothing deleted exactly when both sides have the same names with the same SHAs |
| Refdiff.SelfDiffIsEmpty | sync/refdiff.go:33-58 | diffing a list against itself, repeated names included, reports nothing |
| Refdiff.DeletedIffAbsentFromSource | sync/refdiff.go:41-45 | a destination ref is reported deleted exactly when no source ref has its name, and the entry is that ref |
| Refdiff.DeletedNamesAreOnlyInDestination | sync/refdiff.go:41-45 | every deleted name is absent from the source and its entry is a destination ref |
| Refdiff.LastOccurrenceOf | sync/refdiff.go:12-14 | every ref has a last occurrence of its name at or after it |
| Refdiff.ChangedIffNewOrMoved | sync/refdiff.go:47-52 | a source ref (its last occurrence) is reported changed exactly when its name is absent from the destination or the SHA differs, and the entry is that source ref |
| Refdiff.ChangedAndDeletedAreDisjoint | sync/refdiff.go:38-57 | no name is both changed and deleted |
| Refdiff.FullRefdiff | sync/refdiff.go:26-31 | every ref is changed, in the order given, and nothing is deleted; the length is the number of refs, so a non-empty list always leaves work |
| Refdiff.FullRefdiffIsDiffAgainstEmpty | sync/refdiff.go:26-31 | `FullRefdiff` returns the list itself, with duplicates, and no deletions; each of its changed entries is in it, as in a diff against an empty destination |
| Refdiff.KeyedByQualifiedName | sync/refdiff.go:10-16 | a branch and a tag with the same short name are distinct entries |
| Refdiff.LastEntryWins | sync/refdiff.go:12-14 | when a name repeats, the later SHA is the one compared |
| Config.ReadEnvVar | config/config.go:40-53 | a `$` value is replaced by the environment's value, or is an error naming the reference when unset; any other value is kept |
| Config.ReadEnvVarIsSingleLevel | config/config.go:40-53 | the substituted value is not looked up again |
| Config.Massage | config/config.go:55-96 | the type is required and must be github or gitea; github defaults the base URL; gitea requires one; the name defaults to the type; the token is required; the token and then the base URL are substituted; usage and type are never changed |
| Config.TypeIsCheckedFirst | config/config.go:58-64 | a missing or unknown type is reported with the host untouched |
| Config.EmptyBaseUrl | config/config.go:66-74 | a gitea host without a base URL is rejected untouched; a github host gets the public URL |
| Config.EmptyTokenBeforeSubstitution | config/config.go:81-88 | an empty token is reported whatever the environment, after the base and name were defaulted |
| Config.TokenSubstitutedBeforeBase | config/config.go:85-93 | with both references unset, the token's is reported and the base URL is left unsubstituted |
| Config.DollarBaseBypassesDefault | config/config.go:66-93 | a `$VAR` base URL is substituted after defaulting, so it can end up empty |
| Config.Config.MassageHost | config/config.go:55-96 | the slot holds `Massage` of its old value and the error is `Massage`'s; every other slot is unchanged |
| Config.Config.MassageConfig | config/config.go:20-30 | hosts are massaged in order up to the first failure, which is returned; earlier hosts are massaged, the failing one keeps its partial updates, later ones are untouched |
| GitHub.ValidateBaseUrl | vcs/github.go:27-28 | the only error is the GHES error |
| GitHub.MassagedHostPassesGuard | vcs/github.go:27-28 | a configured github host passes the guard exactly when its base URL was empty or starts with `https://github.com` |
| GitHub.GuardIsAPrefixTest | vcs/github.go:27-28 | `https://github.com.example.org` passes, another host does not |
| GitHub.SplitRepositoryUrl | vcs/github.go:82-86 | success exactly when the rest of the URL holds one `/`; then owner + "/" + name is that rest, neither holds `/`, and the owner is non-empty; otherwise the invalid-URL error |
| GitHub.SplitInTwoIffOneSeparator | vcs/github.go:83-84 | `SplitN(t, "/", 3)` gives two parts exactly when `t` holds one `/` |
| GitHub.AcceptsOwnerAndName | vcs/github.go:82-86 | `base/owner/name` splits into that owner and name, even with an empty name (`base/org/`) |
| GitHub.RejectsExtraSegments | vcs/github.go:82-86 | a trailing slash or extra segments after the name are rejected |
| GitHub.RejectsOwnerOnly | vcs/github.go:82-86 | an owner-only URL and the bare base URL are rejected |
| Gitea.Fetch | vcs/gitea_repository.go:28-61 | once initialised, nothing happens; otherwise the topics are listed once, and the cache is filled and marked initialised exactly when the listing succeeded; a failed listing is swallowed |
| Gitea.Add | vcs/gitea_repository.go:71-101 | after the fetch, a cached label is a no-op; otherwise the API is called unless dry-run, and the label enters the cache exactly when no error came back; the error returned is the add call's error, and none under dry-run |
| Gitea.Remove | vcs/gitea_repository.go:103-133 | symmetric to `Add`: an absent label is a no-op; on success or dry-run the label leaves the cache; on an error the cache is unchanged; the error returned is the delete call's error, and none under dry-run |
| Gitea.FetchedOnce | vcs/gitea_repository.go:34-58 | after a successful fetch the topics are never listed again for that object |
| Gitea.FailedFetchIsSwallowed | vcs/gitea_repository.go:47-80 | a failed listing returns no error and leaves the cache uninitialised, also through `AddLabel` and `RemoveLabel` |
| Gitea.AddIdempotent | vcs/gitea_repository.go:82-87 | after a successful add, adding again makes no call and changes nothing |
| Gitea.RemoveIdempotent | vcs/gitea_repository.go:114-119 | after a successful removal, removing again makes no call and changes nothing |
| Gitea.DryRunMakesNoMutatingCall | vcs/gitea_repository.go:89-130 | under dry-run only the listing call is made and the cache gains or loses the label |
| Gitea.GiteaRepository.constructor | vcs/gitea.go:92-95 | a new repository object starts with an empty, uninitialised cache |
| Gitea.GiteaRepository.EnsureTopics | vcs/gitea_repository.go:28-61 | the fields become `Fetch`'s cache and the calls made are `Fetch`'s |
| Gitea.GiteaRepository.AddLabel | vcs/gitea_repository.go:71-101 | the fields, error and calls are `Add`'s |
| Gitea.GiteaRepository.RemoveLabel | vcs/gitea_repository.go:103-133 | the fields, error and calls are `Remove`'s |
| Gitea.AddLabelAsWritten | vcs/gitea_repository.go:71-101 | on an allocated topic map the code as written behaves as `Add` |
| Gitea.AddLabelAfterFailedFetchPanics | vcs/gitea_repository.go:47-98 | as written, adding a label after a failed first listing writes to a nil map |
| Gitea.AddLabelAfterFailedFetchCaches | vcs/gitea_repository.go:96-98 | with the map allocated up front, the same call caches the label and leaves the cache uninitialised |
| Gitea.RefsOf | vcs/gitea_repository.go:152-194 | one ref per item, in order, named `prefix + name` |
| Gitea.BranchRefIsBranchRefName | vcs/gitea_repository.go:153-157 | a listed branch's ref name is `Branch.RefName` |
| Gitea.CollectPages | vcs/gitea_repository.go:146-170 | a listing that stops keeps the refs gathered before it as its prefix; with no page left the listing is unfinished |
| Gitea.ListRefsOf | vcs/gitea_repository.go:135-210 | a complete listing exists only after a complete branch listing, and starts with those branches |
| Gitea.ListedRefsAreBranchesThenTags | vcs/gitea_repository.go:135-210 | a complete listing is every branch as `refs/heads/`, then every tag as `refs/tags/` |
| Gitea.TagStopCountsOnlyTags | vcs/gitea_repository.go:180-203 | the tag loop stops on the tag count alone, whatever branches came before |
| Gitea.AppendPage | vcs/gitea_repository.go:152-158 | the page's refs are appended in order |
| Gitea.PageThrough | vcs/gitea_repository.go:146-170 | the paging loop computes `CollectPages` |
| Gitea.ListRefs | vcs/gitea_repository.go:135-210 | the two paging loops compute `ListRefsOf` |
| SyncRepository.FindRepositorySource | sync/repository.go:67-117 | both markers are detected anywhere; without the backup marker, or with an empty or unparsable URL, there is no source and the mapping is untouched; otherwise the source is the stripped URL, with the host when its authority is in the table and the mapping then records it |
| SyncRepository.IgnoreMarkerAloneIsNoBackup | sync/repository.go:76-116 | `[ignore]` without `[backup]` gives no source |
| SyncRepository.IgnoreDescriptionMarkers | sync/repository.go:72-73 | `[ignore] url` carries the ignore marker and, when the URL lacks it, not the backup marker |
| SyncRepository.BackupDescriptionRoundTrip | sync/repository.go:225 | `[backup] url` starts with the marker and reads back as the trimmed URL when the URL holds neither marker |
| SyncRepository.ResolutionIndependentOfMapping | sync/sync.go:67-114 | the source and state found do not depend on the mapping, so the variant that records nothing finds the same |
| SyncRepository.PlanLabels | sync/repository.go:119-146 | the label added and the one removed are the two labels, and `gitr-backup` is added exactly when the description starts with `[backup]` |
| SyncRepository.MarkerInsideDescriptionIsLabelledPrivate | sync/repository.go:72-122 | a marker inside the description makes a backup but the label is `private` |
| SyncRepository.EnsureLabelStep | sync/repository.go:119-146 | add the wanted label, then remove the other; the first error is returned without attempting the removal |
| SyncRepository.EnsureLabelIdempotent | sync/repository.go:119-146 | after a successful labelling, labelling again makes no add or delete call and changes nothing |
| SyncRepository.EnsureLabel | sync/repository.go:119-146 | the repository's cache, error and calls are `EnsureLabelStep`'s, whatever `isBackup` says |
| SyncRepository.FoldChangelog | sync/repository.go:301-331 | the changed and deleted sets are the reference sets, and they are disjoint |
| SyncRepository.ChangedNeverLaterDeleted | sync/repository.go:307-327 | a name marked changed stays changed and is never marked deleted afterwards |
| SyncRepository.NonEmptyChangelogHasWork | sync/repository.go:301-344 | a non-empty changelog leaves something to push or delete |
| SyncRepository.UpdateKeysByShortName | sync/repository.go:305-323 | updates are filed under the short name, so a deleted `refs/heads/main` and an updated `main` are both kept |
| SyncRepository.KeysOf | sync/repository.go:353 | the keys are listed once each |
| SyncRepository.Refspecs | sync/repository.go:186-194 | one refspec per changed and per deleted name |
| SyncRepository.RefspecsRoundTrip | sync/repository.go:186-194 | the refspecs read back as the changed names, then the deleted names |
| SyncRepository.BuildRefspecs | sync/repository.go:186-194 | the loops build `Refspecs` |
| SyncRepository.MirrorRefs | sync/repository.go:148-212 | a setup error is returned with nothing pushed; otherwise the refspecs are pushed and the push error is returned |
| SyncRepository.GetRepositoryByUrl | vcs/github.go:82-91 | a Gitea host does not implement the lookup; a GitHub host splits the URL and then asks the API |
| SyncRepository.FetchChangelog | sync/repository.go:275-299 | the changelog is obtained exactly when the lookup and both listings succeed, each failure given its own message |
| SyncRepository.SyncFromSource | sync/repository.go:275-353 | nothing is pushed on a failure, an empty fold or dry-run; otherwise the folded sets are mirrored |
| SyncRepository.ProcessRepo | sync/repository.go:252-353 | the mapping is `FindRepositorySource`'s and the labelling `EnsureLabelStep`'s; a label error stops it; without a source host, or with the ignore marker, the label result is returned; otherwise the changelog error is returned with nothing pushed, an empty fold or dry-run returns nothing, and a non-empty fold is mirrored, returning the setup error with no push, or the push error after pushing the refspecs of every changed name and every deleted name, each listed once |
| SyncRepository.RefNames | sync/repository.go:243-246 | the qualified names of the refs, in order |
| SyncRepository.CollectRefNames | sync/repository.go:243-246 | the loop builds `RefNames` |
| SyncRepository.FullMirrorPushesRefNames | sync/repository.go:249 | mirroring every ref without deletion pushes the qualified names in order |
| SyncRepository.BackupNewRepo | sync/repository.go:214-250 | dry-run creates nothing; otherwise the creation error, then the label error, then the listing error is returned, each with its prefix; a created repository has the source's name and `[backup] url`, and all source refs are mirrored with no deletion |
| SyncRepository.NewBackupIsLabelledBackup | sync/repository.go:225 | a new backup is labelled `gitr-backup`, and `private` is removed |
| Sync.PrefixTable | sync/sync.go:347-368 | every entry's index is one of the hosts |
| Sync.PrefixTableFailure | sync/sync.go:357-360 | the table fails exactly when some source host's base URL does not parse, and the error is the first such host's |
| Sync.PrefixTableContents | sync/sync.go:347-368 | the table holds only source hosts, each under its own key; every source host's key is present; the host kept is the last source with that key |
| Sync.LaterSourceOverwrites | sync/sync.go:367 | a later source with the same key replaces the earlier one |
| Sync.BuildPrefixTable | sync/sync.go:347-368 | the loop computes `PrefixTable`, returning at the first parse failure |
| Sync.FailuresPositive | sync/sync.go:321-334 | the error counter is positive exactly when some outcome failed |
| Sync.EntriesLabelledEach | sync/sync.go:322-330 | when every repository is processed, each one's topic cache went from its state before to `LabelOf`'s, and its outcome is the labelling error when there was one |
| Sync.ProcessEntry | sync/sync.go:323-329 | one repository is processed: its cache becomes `LabelOf`'s, its outcome is appended, and no other repository of the listing changes |
| Sync.ProcessEntries | sync/sync.go:321-330 | every repository is processed, in order, even after failures; each cache goes from its state before to `LabelOf`'s; the counter is the number of failed outcomes |
| Sync.ProcessDestination | sync/sync.go:311-337 | a listing error is returned at once with nothing touched; otherwise every repository is processed and labelled, and "Some repositories failed" is returned exactly when one failed |
| Sync.HostsDoneEach | sync/sync.go:372-382 | once every host is handled, each backup host's run is `DestinationDone` and each other host is untouched with no error |
| Sync.ProcessHost | sync/sync.go:372-381 | a host that is not a backup is skipped without error and unchanged; a backup host is processed as a destination, and no other host's repositories change |
| Sync.ProcessBackups | sync/sync.go:371-382 | every host is handled in order, backup hosts as destinations; the counter is the number of failed destinations; each host's caches go from their state before to the run's result |
| Sync.SyncHosts | sync/sync.go:339-389 | a table error is returned with nothing touched; otherwise every backup host is processed in order, each host's run is `DestinationDone` or a skip, and "Some destinations have failed" is returned exactly when one failed |

## Left out

- Git transport: libgit2 cloning, the mirror remote, the push URL, the push itself and the temporary directory of `mirrorRefs` (sync/repository.go:148-212). Their outcome is the `Transfer` parameter; only the refspec list is modelled.
- The diff library: `diff.Diff` is foreign. Its output is an event sequence given by the caller. `strconv.Atoi` on the update path (sync/repository.go:315) is folded into the `Update` event, which carries the short name directly.
- The unknown-change-type `log.Fatal` (sync/repository.go:329): the changelog datatype has only the three kinds.
- The hosting-API clients:
  - `NewGiteaClient`, `GetRepositories` and `CreateRepository` of vcs/gitea.go and vcs/github.go are network calls. Their answers are parameters: a listing result per destination, a creation error for a new backup.
  - The login of `NewGitHubClient` after the base-URL guard is a network call.
- GitHub destinations: the code processes a backup host of either type (sync/sync.go:372-377), and `CreateRepository` of vcs/github.go:101-114 creates a backup on GitHub too. Destination repositories are modelled as Gitea repositories only. A GitHub repository's `AddLabel` and `RemoveLabel` are stubs that return "not implemented" (vcs/github_repository.go:26-32), so every repository of a GitHub destination would fail at labelling; the rest of vcs/github_repository.go wraps the GitHub API library and is not part of this model.
- BackupNewRepo and the creation call: `CreateRepository` is a network call on either host type, and its answer is a parameter.
- The HTTP fetching of the Gitea `ListRefs`: a page is its items and the `X-Total-Count` header after `strconv.Atoi`.
- Gitea.ListRefs: a `Listing` can end `Unfinished` when the given pages run out before the total count is reached. The source would fetch more pages; the model's page sequence is finite.
- The mutex of `Gitea.withContext` (vcs/gitea.go:44-55): it exists only for concurrent use, and the core is sequential.
- URL handling: `url.Parse`/`String` with the path cleared is the uninterpreted `urlKey` parameter. `safeUrl` and `GetHttpsCloneUrl` are credential and URL serialisation and are not part of this model.
- Process plumbing: cmd/root.go, `LoadClients`, `LoadConfig` and the YAML reading are not part of this model. Neither is any logging.
- The `log.Fatal` on a failed `LoadClients` in `SyncHosts`: the model takes the loaded clients as input.
- Oracle answers are fixed per call. A topic listing that fails returns the same failure when repeated on the same object, as the model's `TopicApi` does not change between calls.
- Sync.ProcessDestination, Sync.ProcessEntries and Sync.ProcessEntry: a repository's outcome is tied to its labelling failure when there is one. Its other outcomes are `SyncRepository.ProcessRepo`'s error, whose contract gives them case by case; they are not restated here.
- Sync.SyncHosts: it requires that the repository objects of one listing are distinct and that different hosts share none. Each listing in the source builds fresh objects (vcs/gitea.go:92-95), so this always holds.
- Byte strings: Go strings are sequences of bytes, and the model's are sequences of Unicode scalar values. On valid UTF-8, `HasPrefix`, `Contains`, `ReplaceAll`, `SplitN` and `TrimSpace` give the same results either way. A string holding invalid UTF-8 cannot be represented.
- ListFromRefmap and KeysOf: the order they produce is unspecified, which matches Go's map iteration order. Contents are stated as sets.

## Findings

| source | as written | input that shows it | evidently intended | confidence | as-written member | corrected member |
|---|---|---|---|---|---|---|
| vcs/gitea_repository.go:47-51, 96-98 | `ensureTopics` swallows a failed topic listing before `repo.topics` is allocated. A new repository object (vcs/gitea.go:92-95, 133-136) leaves the map nil, so `AddLabel` then writes to a nil map | a fresh repository whose topic listing fails, then `AddLabel("private")` under dry-run or with a successful add call | the label is cached (or the failure reported) without crashing | not executed | Gitea.AddLabelAfterFailedFetchPanics | Gitea.AddLabelAfterFailedFetchCaches |
