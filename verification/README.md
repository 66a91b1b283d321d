# Verification of the relay's core logic

A Dafny model of the five pieces of logic behind the relay's HTTP and Docker plumbing, with proofs of what they
promise. `dafny verify dfyconfig.toml` checks all of it.

| part | files | modelled from |
|---|---|---|
| Registry of environments and port exposures | `Tables`, `Store`, `Reconcile`, `App`, `Relay`, `Lookups`, `Uninterrupted`, `Handlers` | `module/store.go`, `module/discovery.go`, `module/app.go`, `module/api.go` |
| Host names: sanitising, joining, parsing back | `Text`, `Sorting`, `Names`, `NameForms`, `Zones`, `ZoneLaws` | `module/domains.go`, `module/discovery.go`, `module/api.go`, `module/app.go` |
| Mount paths and the lazily expanded tree | `Paths`, `Mounts`, `MountTree`, `MountLaws` | `module/mounts.go` |
| Session importer: readers, plan, log and rows | `Session`, `SessionLaws`, `ClaudeSession`, `ClaudeLaws`, `Plan`, `PlanLaws`, `Ledger`, `Import`, `ImportDatabase`, `ImportLaws`, `StoredRows`, `Reimport`, `LaterReimport`, `Bookkeeping`, `ResumeLaws` | `scripts/import-codex-session.mjs` |
| Half-close TCP bridge | `Bridge` | `module/tailnet.go` |

How the model is laid out:

- A table is a map from its primary key to rows. Each SQL statement is one function on tables; a class holds the tables
  as fields and its methods change them statement by statement. Foreign keys are off in `OpenStore`, so nothing cascades.
- `Relay` lets the statements of any number of handlers, lookups and discovery passes interleave, with a clock that moves
  between them and programs that may be cut short anywhere. Its laws are about every run. `Uninterrupted` and
  `Handlers` show that a pass, a handler or a lookup that is not interrupted there does what its method does.
- A loop and the function that specifies it are two; what that function says is told again, from the inputs alone, by
  the laws beside it: `NameForms`, `ZoneLaws`, `MountLaws`, `SessionLaws`, `ClaudeLaws`, `PlanLaws`, `StoredRows` and
  `ResumeLaws`.
- Go's `path.Clean`, `path.Join` and `filepath.Rel` are written from their documented rules, as a stack of components.
  `EvalSymlinks` is a parameter.
- The importer's `stableId` and `stableUuid` are injective: each generated id is a term of its own. The log's replay
  takes every column from the payloads the plan builds, whatever the row statements do, and a thread's last update from
  the time of the latest event of its stream. `Options` holds the one datatype all parts share.

What the proofs brought to light, each stated below as an exact condition or with an input:

- The sweep of expired exposures changes what a write does in two cases only: a label held by an expired row of another
  key makes the write fail before the sweep and succeed after it (`Tables.SweepAndUpsert`), and a refresh that finds its
  own expired row keeps its `created_at`, which it loses after the sweep (`Tables.SweepAndRefresh`). Readers see the
  second case as another `created_at` of an exposure registered again after it lapsed, and nothing else
  (`Tables.SweepIsInvisible`).
- Decision 0004 (`docs/decisions/0004-hostname-collisions.md`) says the first-seen container keeps the bare name. The code
  decides by listing order in each pass (`Reconciling.OrderDecidesTheName`); the model follows the code.
- `cleanContainerPath` trims before it cleans, so cleaning can uncover white space: `/a /` becomes `/a ` with its space, and
  that becomes `/a` (`Mounts.CleanContainerPathStable`, `Mounts.TrailingSlashUncovers`). Host names drop one trailing dot
  only (`Zones.NormalizeHostStable`, `Zones.TwoDotsAreUnstable`).
- A path with another side comes back through the mounts exactly when the mount chosen on the way back has a source and
  lies with the first alike on both sides
  (`Mounts.RoundTripIff`, `Mounts.AllRoundTripIff`); mounts that are nested differently lead astray
  (`Mounts.NestedSourcesGoAstray`).
- A host lookup makes several reads. Its answer is the one a lookup at once would give unless the exposure is deleted,
  written again or expires, or its label taken, in between (`Lookups.LookupIsCurrent`); a run from an empty store ends
  with the answer of an exposure already deleted (`Lookups.StaleAnswerIsReached`).
- The importer's log and its rows agree on threads, messages, activities and sessions after every import. On projects they
  part exactly when an import creates a project whose id an old row still has, with another creation time, or when a
  forced import runs under a thread id that is also a project's (`ImportLaws.AgreementIff`; inputs in
  `ImportLaws.OrdinaryImportCanDisagree` and `ImportLaws.ForcedImportCanDisagree`).
- After an import has created its project and that project is deleted, no import of the session succeeds any more unless the
  root has another project: it would write the project's event a second time (`LaterReimports.GoneProjectBlocks`, `LaterReimports.DeletionBlocksReimport`).
  When a forced import goes through is stated exactly (`Reimports.ForcedSucceedsIff`).
- The importer searches resume cursors as JSON text. A session stays bound to one thread exactly when its id is found in
  every cursor written for it (`Bookkeeping.BoundOnceIff`). Ids without escapes are, and so is a single backslash; Codex
  ids with a control character are not (`Bookkeeping.ControlIsMissed`).
- Without CloseWrite, closing one direction cuts off the other (`Bridge.WithoutHalfCloseBytesAreLost`, `Bridge.LosingRun`).

## Model

| member | source | states |
|---|---|---|
| Names.SanitizeNameFixpoints | module/discovery.go:21-28 | a sanitised name has only `a-z0-9-` and no edge hyphen, sanitising again changes nothing, and exactly such names are left alone |
| NameForms.SanitizeNameSpelled | module/discovery.go:21-28 | of words of letters, digits and hyphens with runs of any other characters between them, the words are kept in lower case with one hyphen for each run; what stands before the first and after the last word goes, and without words nothing is left |
| NameForms.SlashAndCaseDoNotMatter | module/discovery.go:22-24 | one leading slash and letter case make no difference |
| Names.CollapseForm | module/api.go:500-506 | collapsing hyphen runs leaves no `--`, keeps the ends and the alphabet, and leaves names without `--` alone |
| Names.ReplacePairsForm | module/api.go:500-506 | one replacement of `--` by `-` shortens a name that has a pair and does not change what it collapses to, so the loop ends and collapses each run |
| Names.NormalizeExposureName | module/api.go:500-506 | the loop computes the sanitised name with each hyphen run collapsed |
| Names.NormalizedNameFixpoints | module/api.go:500-506 | the result is empty or a label without `--` and without edge hyphen; normalising is idempotent and fixes exactly those |
| NameForms.NormalizedNameSpelled | module/api.go:500-506 | an exposure's name is the words of letters and digits in what was asked for, in lower case, with one hyphen between each two, whatever else stood there |
| Names.DefaultNameIsNormal | module/api.go:508-510 | the default name of an exposure, its port in decimal, is already normal |
| NameForms.ItoaValue | module/api.go:508-510 | it reads back as the port and has no leading zero |
| Names.DelimiterAtJoin | module/app.go:206-217 | the last `--` of `env--name` stands at the join if and only if the name has no `--` and no leading hyphen, whatever the environment's name contains |
| Names.LabelsDecode | module/api.go:591 | labels are uniquely decodable: equal labels of normal exposure names come from equal pairs |
| Zones.NormalizeHostStable | module/domains.go:88-92 | normalising a host twice is the same as once exactly unless the one trailing dot that is dropped stands behind another dot or white space |
| Zones.TwoDotsAreUnstable | module/domains.go:88-92 | `a..` becomes `a.`, and that `a` |
| ZoneLaws.NormalizeHostExact | module/domains.go:88-92 | white space around a host goes, then one trailing dot, and the rest is lowered |
| ZoneLaws.SiteKeyExact | module/domains.go:57-74 | the site labels are `caddy` and `caddy_` with a number |
| ZoneLaws.WildcardZoneExact | module/domains.go:76-86 | a host names a zone exactly when it is `*.` and the zone, and the zone is `t3.` with at least two more labels |
| Zones.WildcardZonesFromLabels | module/domains.go:32-55 | the zones found are exactly those a wildcard host in some Caddy site label names, by length descending and then alphabetically |
| ZoneLaws.IsZoneExact | module/domains.go:32-45 | a zone is among them exactly when one of the hosts between the commas of a site label, normalised, is `*.` and that zone |
| Zones.ZonesDetermined | module/domains.go:32-55 | such a list is the only one and free of duplicates, so the map's iteration order cannot show |
| Text.LexLessExact | module/domains.go:50-53 | texts are ordered by the first character in which they differ, the shorter first |
| Zones.ParseServedHost | module/domains.go:94-111 | the loop with its early return computes what the first fitting zone decides |
| Zones.ParseServedExact | module/domains.go:94-111 | over zones by descending length it answers (name, zone) if and only if the normalised host is name.zone for a listed zone and a non-empty, dot-free name |
| Zones.DenotesUnique | module/domains.go:94-111 | a host denotes at most one such pair |
| Zones.ShortZoneFirstRejects | module/domains.go:100-108 | were a shorter zone listed first, the early return would reject a host of the longer one |
| Zones.PublishedParses | module/app.go:275-284 | publishing a label under the primary zone and parsing the host gives label and zone back exactly when the zone is non-empty, lower-case and has a clean end |
| ZoneLaws.PublishedExact | module/app.go:275-284 | a name is published in lower case below the primary zone, alone when there is none, and not at all when blank |
| Tables.LabelIsOneRow | module/store.go:113-125 | with unique labels the lookup by label finds the one unexpired row that has it |
| Tables.UpsertExposureKeepsKeys | module/store.go:88-111 | a write that succeeds keeps primary keys and host labels unique |
| Tables.ExecuteKeepsKeys | module/store.go:43-70 | so does every statement of the store |
| Tables.ReadersSeeVisible | module/store.go:113-148 | both readers depend on unexpired rows alone |
| Tables.SweepIsInvisible | module/store.go:162-165 | sweeping at a time changes no later answer of either reader but for created_at of the exposures that lapsed by then and were registered again, whatever statements run in between, as long as no write meets the label of another key's row that the sweep would have removed; rows that lapse later may be met |
| Tables.SweepIsInvisibleStrictly | module/store.go:162-165 | when none was registered again both readers answer exactly the same |
| Tables.SweepAndUpsert | module/store.go:88-111 | a sweep makes no upsert fail, and makes one succeed exactly when its label was held by another, expired row |
| Tables.SweepAndRefresh | module/store.go:88-111 | where both succeed the stored row is the same, except for created_at exactly when the write meets its own expired row |
| Stores.Store.constructor | module/store.go:73-86 | a new store has two empty tables |
| Stores.Store.UpsertExposure | module/store.go:88-111 | fails and changes nothing exactly on a label held by another row; otherwise writes the row with its defaults filled in, keeping created_at of a row that is there |
| Stores.Store.GetExposureByHostLabel | module/store.go:113-125 | the unexpired exposure with the label, if there is one |
| Stores.Store.ListExposures | module/store.go:127-148 | exactly the unexpired exposures of the environment, ordered by name |
| Stores.Store.DeleteExposure | module/store.go:150-160 | removes that row alone and tells whether it was there |
| Stores.Store.DeleteExpiredExposures | module/store.go:162-165 | removes exactly the expired rows |
| Stores.Store.Upsert | module/store.go:173-196 | writes the environment row, keeping first_seen of a row that is there |
| Stores.Store.MarkStopped | module/store.go:199-202 | stops exactly the rows of that container |
| Stores.Store.DeleteByID | module/store.go:205-218 | removes the environment and its exposures and tells whether the environment was there |
| Stores.Store.List | module/store.go:221-235 | every environment once, by last_seen descending |
| Stores.Store.GetByName | module/store.go:250-258 | an environment of that name, whenever there is one |
| Stores.Store.GetByID | module/store.go:261-269 | the environment of that id, if there is one |
| Reconciling.Reconcile | module/discovery.go:85-192 | the upsert loop and the stop sweep, uninterrupted and without errors, leave the tables of one pass, which `Reconciling.PassWrites` and `Reconciling.PassLeaves` describe row by row |
| Reconciling.SweepStopped | module/discovery.go:180-191 | the sweep stops exactly the rows whose container was not seen |
| Reconciling.PassStabilises | module/discovery.go:85-192 | whatever the tables held: unlisted containers' rows are stopped, each devcontainer with a listed address has the row of its last such container in all columns but first_seen and last_seen, first_seen stays, no row goes, nothing else changes |
| Reconciling.PassWrites | module/discovery.go:151-177 | each column of a row the pass writes, from the last container listed for it; first_seen of a new row from the first |
| Reconciling.PassLeaves | module/discovery.go:96-191 | a row it does not write stays as it is if its container is listed under any devcontainer, and is stopped otherwise |
| Reconciling.SecondPass | module/discovery.go:85-192 | a second pass over the same listing and probes changes only last_seen |
| Reconciling.BaseNameExact | module/discovery.go:105-120 | the base name is the sanitised host label if one is given, else the first container name that leaves something, else the short id |
| Reconciling.NameCharacterised | module/discovery.go:113-143 | so with pairwise different ids the first listed container of a base name gets the bare name, every later one the base name, a hyphen and the first six characters of its id |
| Reconciling.NameGenerally | module/discovery.go:122-143 | whatever the ids: a container gets the bare name when the first listed one of its base is the same container, and the suffixed name otherwise |
| Reconciling.SuffixedInjective | module/discovery.go:131-134 | suffixed names coincide exactly when bases and six-character prefixes do, so never for different bases |
| Reconciling.NamesCoincide | module/discovery.go:101-143 | two containers of a pass get the same name exactly when they clash |
| Reconciling.AllNamesDistinct | module/discovery.go:101-143 | all names of a pass are pairwise distinct exactly when no two later containers of a base share a six-character prefix and no suffixed name is another's bare name |
| Reconciling.OrderDecidesTheName | module/discovery.go:130-143 | listed the other way round, two containers of one base trade the bare name |
| App.LookupExposureExact | module/app.go:206-227 | the lookup answers a route if and only if the host parses to a label with a delimiter that is no environment's name, the exposure is stored and unexpired under it, and its environment's row exists and is not stopped |
| App.HasDelimiterExact | module/app.go:211-216 | a label has a delimiter when it is two non-empty texts with `--` between, the last `--` in it |
| App.RelayLookupExact | module/api.go:351-361 | an id finds the row of that key, else a row whose descriptor has it, or whose own key it is when there is no descriptor, if there is one |
| App.PrepareExact | module/api.go:546-591 | which requests are turned away and why, in what order, and every column of a registered exposure: its name, label, port and lifetime of an hour unless asked for, at most a day |
| App.RelayApp.RefreshServedZones | module/app.go:286-297 | the served zones are those of the labels, longest first, with the first as primary; without any, the fallback zone alone or nothing |
| App.RelayApp.LookupByHost | module/app.go:198-204 | answers an environment exactly when the host parses and some environment has the parsed name, and then one of that name |
| App.RelayApp.LookupExposureByHost | module/app.go:206-227 | the method's reads and tests compute the specified lookup |
| App.RelayApp.LookupByRelayID | module/api.go:351-361 | by primary key first, else by the id in the descriptor |
| App.RelayApp.HandleUpsertExposure | module/api.go:532-605 | unknown environment, rejected request, label clash or registered exposure, with the tables each leaves |
| App.RelayApp.HandleDeleteExposure | module/api.go:607-633 | removes the exposure of the normalised name, answering whether it was there |
| App.RelayApp.HandleDeleteEnvironment | module/api.go:447-475 | removes the environment and its exposures |
| App.RelayApp.HandleEnvironmentStatus | module/api.go:392-445 | writes back the row it read as running, or unreachable when the probe failed, with the probe's body if it has one and the time, re-inserting it if need be |
| App.RelayApp.HandleListExposures | module/api.go:516-530 | sweeps, then lists the environment's unexpired exposures |
| Relay.PreparedIsGood | module/api.go:532-604 | a prepared exposure has a port in 1..65535, a lifetime in 1..86400 and a label that ends in its normal name |
| Relay.StatementKeepsGood | module/store.go:88-218 | each statement, under what programs issue, keeps keys and labels unique and rows well formed |
| Relay.StepKeepsProgram | module/api.go:392-633 | each step of a program issues only such statements and leaves a program that will |
| Relay.RunKeepsGood | module/api.go:392-633 | under every interleaving, passes that go on after a failed write included, every state has unique ids, keys and labels, ports in 1..65535 and lifetimes in 1..86400 |
| Relay.FirstSeenIsStable | module/store.go:173-196 | under every interleaving a row keeps its first_seen as long as it stays in the table |
| Relay.FreshStartIsGood | module/store.go:73-86 | an empty store is such a state |
| Relay.StandingThroughRun | module/store.go:88-218 | a routed exposure stays so through every run without an event that ends it |
| Relay.StandingRoutes | module/app.go:206-227 | in any good state, the host published for a standing, unexpired exposure looks up exactly its environment's row and it |
| Relay.RegistrationRoutes | module/api.go:569-604 | registration implies routing: from a successful write on, the published host leads to the environment's row and the exposure in every later state, until it expires, is deleted or refreshed, the environment is deleted or stopped, or the label is taken as a name |
| Relay.LookupsAreBacked | module/app.go:206-227 | under every interleaving, a lookup answers only with what held at the moments it read it |
| Relay.LookupMayAnswerStale | module/app.go:206-227 | wherever a lookup has read an exposure and a handler is about to delete it, the lookup may still answer with it |
| Lookups.ReadsFound | module/app.go:206-227 | what the three reads of a lookup establish, each at its moment |
| Lookups.LookupIsCurrentIff | module/app.go:206-227 | the answer of an interleaved lookup is that of a lookup at once, at its last read, exactly when the exposure is then still stored and unexpired and the label no environment's name |
| Lookups.LookupIsCurrent | module/app.go:206-227 | and so it is when between the reads the exposure was not deleted, written again or expired and its label not taken |
| Lookups.StaleAnswerIsReached | module/app.go:206-227 | a run from an empty store in which a lookup ends with an exposure that is deleted |
| Uninterrupted.StepProgresses | module/discovery.go:105-191 | each statement of a pass brings it one container, or one stopped row, further |
| Uninterrupted.UninterruptedPass | module/discovery.go:85-192 | a pass that nothing interrupts and that loses no write, run statement by statement while the clock moves, leaves what the pass as a whole leaves |
| Handlers.UninterruptedHandler | module/api.go:392-633 | a handler that runs through alone in `Relay`'s steps leaves what its method leaves, for each of the five |
| Handlers.UninterruptedLookup | module/app.go:206-227 | a lookup that runs through alone comes to exactly the answer of a lookup made at once |
| Paths.CleanIdempotent | module/mounts.go:393-398 | cleaning a path twice is the same as once |
| Paths.ComponentsStep | module/mounts.go:393-398 | what one more component does to a path: empty ones and dots vanish, a double dot takes back the last one, vanishes at the root or leads upwards, others are added |
| Paths.ComponentsStart | module/mounts.go:393-398 | the components a path begins with, and how a cleaned path is spelled from its components |
| Paths.ComponentsAppend | module/mounts.go:398 | joining proper components to a path adds them to its components |
| Paths.RelEscapes | module/mounts.go:410-413 | the relative path between absolute paths leads upwards exactly when the base's components do not begin the target's, also for components that begin with `..` |
| Mounts.CleanContainerPathStable | module/mounts.go:499-505 | cleaning is idempotent at a value exactly unless, after trimming, the last component left ends in white space or the first of a relative path begins with it |
| Mounts.TrailingSlashUncovers | module/mounts.go:499-505 | `/a /` becomes `/a ` with its space, and that `/a` |
| Mounts.PathHasPrefixExact | module/mounts.go:507-511 | the string test is the prefix test on components |
| Mounts.RelativeExact | module/mounts.go:490-497 | the relative path is the components after the base's |
| Mounts.RebaseGivesTarget | module/mounts.go:432-454 | joining the base with it gives back the target; joining another base swaps the leading components |
| Mounts.BestMountByDestination | module/mounts.go:456-471 | the loop computes the specified choice |
| Mounts.BestMountBySource | module/mounts.go:473-488 | the loop computes the specified choice |
| Mounts.BestIsLongest | module/mounts.go:456-488 | the choice fits, no fitting mount is longer, and there is none exactly when nothing fits |
| MountLaws.BestIsFirst | module/mounts.go:456-488 | of the longest fitting mounts the first is chosen |
| Mounts.BestDetermined | module/mounts.go:456-488 | its cleaned path does not depend on list order, and ties have the same cleaned path; on the source side mounts without a source do not matter |
| Mounts.TranslationExact | module/mounts.go:432-454 | a translation swaps the components of one side of the chosen mount for those of the other; a path whose mount has no source has none |
| Mounts.RoundTripIff | module/mounts.go:432-454 | a path has another side exactly when the mount chosen for it has a source; it then comes back exactly when the mount chosen on the way back has one too and lies on both sides below the first by the same components |
| Mounts.AllRoundTripIff | module/mounts.go:432-454 | every path that has another side comes back exactly when each two mounts that meet on some path lie alike |
| Mounts.SourceRoundTrip | module/mounts.go:432-454 | to the source and back gives the cleaned path and the writability of the mount it comes back through, for every path whose mount has a source, when sources that are nested have destinations nested alike |
| Mounts.DestinationRoundTrip | module/mounts.go:432-454 | to the destination and back gives the cleaned path, for every path under some source, when destinations that are nested have sources nested alike |
| Mounts.NotNestedAligned | module/mounts.go:432-454 | mounts that are not nested are of this kind |
| Mounts.NestedSourcesGoAstray | module/mounts.go:432-454 | with sources nested and destinations not, the way back ends elsewhere |
| Mounts.MountContainerPathExact | module/mounts.go:424-430 | the relay's path of a browsed entry is the root's components followed by the clean path's |
| Mounts.ShownPathIsTheSameSource | module/mounts.go:149-199 | a path shown for another container stands for the same host source as the relay's own path, whatever the relay's mounts, exactly when the container's mounts chosen out and back lie alike |
| Mounts.CleanRelativeForm | module/mounts.go:393-397 | for every input the clean path has no empty, `.` or `..` component, and cleaning it again is a no-op |
| Mounts.FullPathUnderRoot | module/mounts.go:398 | lexically the joined path is the root's components followed by the clean path's |
| Mounts.SafeMountPathExact | module/mounts.go:388-415 | when root and target resolve to absolute paths the call succeeds exactly when the resolved root's components begin the resolved target's |
| MountLaws.SafeMountPathOtherwise | module/mounts.go:388-415 | the other cases: no root, a root that is missing or cannot be resolved, a target that cannot be resolved |
| MountTree.MountChildren | module/mounts.go:333-371 | the loop over the sorted entries computes the specified listing |
| MountTree.ChildrenExact | module/mounts.go:333-371 | a directory reached without symlinks lists exactly its entries that are no symlinks, directories first |
| MountLaws.ListingExact | module/mounts.go:310-371 | each entry of the directory that is no symlink is listed once, with its name, path, kind, size and whether it has something to show, directories first and then by name, case aside |
| MountLaws.NotListed | module/mounts.go:333-341 | there is no listing exactly for a path that is turned away or leads to no directory |
| MountTree.MountEntryExact | module/mounts.go:310-331 | each listed entry describes the node of that name, its size included |
| MountTree.EntryPath | module/mounts.go:417-422 | the path of a listed entry leads back to its node |
| MountTree.ListedBelow | module/mounts.go:333-371 | every listed directory is lower than the one listed, so expansion ends |
| MountTree.ExpansionExact | module/mounts.go:333-371 | expanding from the root shows every entry with no symlink on its path exactly once and nothing else |
| MountTree.HasChildrenExact | module/mounts.go:373-386 | HasChildren is true exactly when that entry's listing would not be empty |
| Bridge.StepKeepsGood | module/tailnet.go:203-246 | every step keeps what was delivered and what is held together the part of the source read so far, and lets a lane stop only at its end or at a deadline |
| Bridge.DeliveryIsFaithful | module/tailnet.go:211-246 | with CloseWrite, in every state of every run, what arrived is a prefix of what was sent, and a write side is closed exactly when its lane is done, which is after everything up to EOF has arrived |
| Bridge.CloseIsExact | module/tailnet.go:211-246 | whatever the connections support, in every state of every run: a write side is closed exactly when its direction is done and the connection can half-close; where it cannot, the other direction is cut off exactly then |
| Bridge.LanesIndependent | module/tailnet.go:203-246 | a step leaves the other direction alone, unless it closes a connection that cannot half-close |
| Bridge.WorkShrinks | module/tailnet.go:203-239 | every step of the bridge lowers what remains to be done |
| Bridge.RestsWhenDone | module/tailnet.go:203-209 | once both peers have hung up the bridge rests exactly when it is released, with both directions done |
| Bridge.RunIsBounded | module/tailnet.go:203-239 | over every run, however the bridge's steps and its peers' mix, the bridge takes no more steps than it had work plus two for each byte sent meanwhile, less the work left |
| Bridge.EveryRunEnds | module/tailnet.go:203-239 | a run has at most five steps of the bridge and two for each byte sent; once both peers have hung up the bridge rests exactly when released, and it is released only with both streams delivered whole and both write sides closed |
| Bridge.DeadlineCuts | module/tailnet.go:241-246 | after an expired deadline a lane reads nothing more |
| Bridge.WithoutHalfCloseBytesAreLost | module/tailnet.go:241-246 | after a close without CloseWrite the opposite stream arrives whole exactly when all of it had been read by then and is written out |
| Bridge.LosingRun | module/tailnet.go:241-246 | a whole run that ends with a byte lost |
| Sessions.SilentContent | scripts/import-codex-session.mjs:117-129 | a content gives no text exactly when none of its parts does |
| SessionLaws.TextOfContent | scripts/import-codex-session.mjs:117-129 | the text of a content is the texts of its parts that have one, a blank line between each two, a part giving the first of its three texts |
| Sessions.ParseCodexSession | scripts/import-codex-session.mjs:188-342 | rejects another session's file, else collects messages, activities, turn times, model and effort record by record; the rows below say what each of them is |
| SessionLaws.MismatchExact | scripts/import-codex-session.mjs:188-193 | the file is rejected exactly when its first session record has an id that is neither empty nor the one asked for |
| SessionLaws.CodexMessagesExact | scripts/import-codex-session.mjs:243-289 | the messages are what the records say, in order and nothing left out: a user's from a user message, the assistant's from an agent message or a response without phase, each with the record's text, time, line and turn |
| SessionLaws.CodexActivitiesExact | scripts/import-codex-session.mjs:291-321 | the activities are the tool calls and results of the records, in order and none left out, with their columns |
| SessionLaws.TurnIsExact | scripts/import-codex-session.mjs:208-228 | a record's turn is that of the nearest earlier task start or turn context that names one |
| SessionLaws.TimeIsExact | scripts/import-codex-session.mjs:204 | a record's time is its own, else the session's, else the clock's |
| SessionLaws.CodexModelExact | scripts/import-codex-session.mjs:195-229 | model and effort are those of the last turn context that gives them, a reasoning effort above an effort; else the model is the session's |
| SessionLaws.CodexSpan | scripts/import-codex-session.mjs:324-338 | a session lasts from its first to its last message, else from the session's time to the last record's; the assistant's last message is remembered |
| Sessions.CodexTurnIsNearest | scripts/import-codex-session.mjs:208-228 | the turn in force is that of the nearest earlier record that set one |
| Sessions.CodexMessagesInOrder | scripts/import-codex-session.mjs:243-289 | messages keep file order, at most one to a record, and no record with something to say is passed over |
| Sessions.CodexActivitiesInOrder | scripts/import-codex-session.mjs:291-321 | the same of activities |
| Sessions.CodexTurnsOfRecords | scripts/import-codex-session.mjs:243-321 | every message and activity carries the line of a record and the turn in force there |
| Sessions.CodexTimesExact | scripts/import-codex-session.mjs:208-241 | a turn has times exactly when a record started or completed it, and is completed exactly when it was not started again since, at the time of its last completion |
| Sessions.CodexStartExact | scripts/import-codex-session.mjs:208-218 | its start and request are those of its last start record |
| SessionLaws.CodexTurnTimes | scripts/import-codex-session.mjs:208-241 | in a session's times: which turns have them, when each was requested, started and completed, one that was never started being dated from its first completion |
| ClaudeSessions.SilentClaudeContent | scripts/import-codex-session.mjs:344-355 | a content gives no text exactly when none of its parts does, a tool's result giving none of its own |
| ClaudeLaws.ClaudeTextOfContent | scripts/import-codex-session.mjs:344-355 | the text of a content is the texts of its parts that have one, a blank line between each two |
| ClaudeLaws.SpokenTextExact | scripts/import-codex-session.mjs:440-463 | what the assistant says in a line is its text parts, a blank line between each two |
| ClaudeSessions.SetTurn | scripts/import-codex-session.mjs:377-387 | names the turn and starts its times if it is new |
| ClaudeSessions.ReadParts | scripts/import-codex-session.mjs:440-462 | the loop over parts gives the joined text and one activity for each tool use |
| ClaudeSessions.ReadBody | scripts/import-codex-session.mjs:399-495 | what one line adds to messages, activities, turn times and the last assistant item |
| ClaudeSessions.ParseClaudeSession | scripts/import-codex-session.mjs:366-515 | rejects a file with a line of another session, else collects what the lines give; the rows below say what that is |
| ClaudeLaws.ForeignExact | scripts/import-codex-session.mjs:395-397 | the file is rejected exactly when some line names a session that is neither empty nor the one asked for |
| ClaudeLaws.ClaudeTurnExact | scripts/import-codex-session.mjs:377-438 | a line is in the turn of the last prompt so far, named by its prompt id, else its uuid, else its line; without a prompt in that of the first reply so far; else in none |
| ClaudeLaws.ClaudeMessagesExact | scripts/import-codex-session.mjs:399-472 | the messages are what prompts and replies say, in order and nothing left out, with role, text, item id, time and turn of the line |
| ClaudeLaws.ClaudeActivitiesExact | scripts/import-codex-session.mjs:413-495 | the activities are, line by line, the tool calls of its parts in order, its tool's result or its attachment, with their columns |
| ClaudeLaws.ClaudeTimesExact | scripts/import-codex-session.mjs:377-387 | a turn has times exactly when some line is in it, and was requested and started at the first of them |
| ClaudeLaws.ClaudeSpan | scripts/import-codex-session.mjs:394-515 | the model is the last one named plainly; a session lasts from its first to its last message, else from the first time any line has to the last line's; the assistant's last message is remembered |
| ClaudeSessions.ClaudeTurns | scripts/import-codex-session.mjs:377-496 | every turn a message or activity names has times; a turn starts with its first line and is completed with the assistant's last answer in it |
| ClaudeSessions.ClaudeMessagesInOrder | scripts/import-codex-session.mjs:407-477 | messages keep file order, at most one to a line, none passed over |
| Plans.BuildPlan | scripts/import-codex-session.mjs:678-837 | the pushes yield the plan that `PlanLaws` describes, event by event and row by row, with the requested root as worktree |
| PlanLaws.SelectionExact | scripts/import-codex-session.mjs:600-617 | the model is the one asked for, else the session's, else the provider's default; the effort the one asked for, else the session's, else high for Codex and none for Claude |
| PlanLaws.HeaderExact | scripts/import-codex-session.mjs:594-621 | the thread is the one asked for, else the one provider and session determine; times, title, root and project are as given |
| PlanLaws.EventsExact | scripts/import-codex-session.mjs:678-812 | every event with its id, place, stream, time, actor, metadata and payload: the project's if it is new, the thread's, each message's, each activity's, the session's |
| Plans.IdsDistinct | scripts/import-codex-session.mjs:679-763 | no two events, messages or activities of a plan share an id |
| Plans.EventIndex | scripts/import-codex-session.mjs:679-690 | each event's id holds its type, its place and its stream |
| Plans.TurnIdsExact | scripts/import-codex-session.mjs:814 | the turn ids are those messages name, without null and empty ones, each once |
| Plans.TurnsPartition | scripts/import-codex-session.mjs:814-837 | the turn rows partition exactly the messages with a turn id, each pointing to its first user and its last assistant message |
| PlanLaws.TurnRowsExact | scripts/import-codex-session.mjs:814-837 | the turn rows stand in the order of their first mention, with the times the reader found, else those of the turn's first and last message |
| Ledger.WithoutReplays | scripts/import-codex-session.mjs:938 | deleting a stream's events takes from the replay the rows of that stream and no others |
| Ledger.WithoutKeepsGapless | scripts/import-codex-session.mjs:938 | and leaves every other stream's versions without a gap |
| Ledger.NextVersionCounts | scripts/import-codex-session.mjs:910-912 | over versions 0..n-1 the subquery gives n |
| Ledger.AppendAllKeepsOrder | scripts/import-codex-session.mjs:903-926 | appending keeps versions 0..n-1 in every stream, rising with sequence, and only adds to the log |
| Ledger.AppendAllReplays | scripts/import-codex-session.mjs:941 | what the log replays to after a plan is the plan's payloads played on what it replayed to before |
| Imports.InsertableExact | scripts/import-codex-session.mjs:998-1037 | rows go in one after another exactly when their keys are new and pairwise different |
| Imports.LatestUserExact | scripts/import-codex-session.mjs:969-970 | the latest user time is that of the last message a user sent, if there is one |
| Imports.AdvanceExact | scripts/import-codex-session.mjs:1103-1114 | the named cursors get the new value, all others keep theirs |
| ImportDatabase.Database.InsertEvent | scripts/import-codex-session.mjs:903-926 | appends the event with the stream's next version, or fails on an id already there |
| ImportDatabase.Database.ClearThread | scripts/import-codex-session.mjs:931-939 | the deletions of a forced import |
| ImportDatabase.Database.ApplyPlan | scripts/import-codex-session.mjs:928-1122 | all statements of the plan, or none at the first key violation; it succeeds exactly when no key is violated |
| StoredRows.ThreadStored | scripts/import-codex-session.mjs:969-996 | the thread's row after a successful import, column by column: its latest turn is the one whose first mention comes last, its latest user message the last one of a user |
| StoredRows.MessagesStored | scripts/import-codex-session.mjs:998-1016 | each message read has its row under its id, no other row comes, and only the thread's own go |
| StoredRows.ActivitiesStored | scripts/import-codex-session.mjs:1018-1037 | the same of activities, numbered as they were read |
| StoredRows.TurnsStored | scripts/import-codex-session.mjs:1039-1062 | the same of turn rows |
| StoredRows.SessionStored | scripts/import-codex-session.mjs:943-1101 | the session row, the runtime row with what the provider needs to resume, and the project row, which keeps its first creation time |
| StoredRows.EventsStored | scripts/import-codex-session.mjs:938-941 | the plan's events follow what the log keeps, in order and under consecutive sequence values |
| StoredRows.CursorsStored | scripts/import-codex-session.mjs:1103-1116 | the nine projectors' cursors are set to the highest sequence value of the log and of any cursor, no others move |
| ImportDatabase.Database.FindProject | scripts/import-codex-session.mjs:663-667 | a most recently updated, undeleted project of that root, if there is one |
| ImportDatabase.Database.Run | scripts/import-codex-session.mjs:1171-1194 | the import command as a function of the tables before; a sound database stays sound |
| ImportLaws.PlayPlan | scripts/import-codex-session.mjs:692-812 | played, a plan's events give exactly the message, activity and session rows the plan inserts beside them, the thread row with the last update of the row, and a project with the creation time of its payload |
| ImportLaws.WrittenReplays | scripts/import-codex-session.mjs:941-1080 | after a plan is written the thread, message, activity and session rows are what the log replays to |
| ImportLaws.ImportKeepsSound | scripts/import-codex-session.mjs:928-1122 | any import, forced or not, keeps that agreement, gapless versions and rising sequences |
| ImportLaws.AgreementIff | scripts/import-codex-session.mjs:931-967 | an import keeps the project rows in agreement too exactly unless it creates a project whose id an old row has with another creation time, or is forced under a project's id without creating that project again |
| ImportLaws.ForcedImportCanDisagree | scripts/import-codex-session.mjs:931-939 | a database and a forced import after which log and rows disagree |
| ImportLaws.OrdinaryImportCanDisagree | scripts/import-codex-session.mjs:943-967 | a database with a deleted project and an import, not forced, after which they disagree |
| ImportLaws.RunKeepsSound | scripts/import-codex-session.mjs:928-1122 | over every run of imports the log agrees with thread, message, activity and session rows, and versions are 0..n-1 in every stream |
| ImportLaws.RunKeepsAgreement | scripts/import-codex-session.mjs:928-1122 | and with project rows, in all of a run's states exactly when every import in it is harmless |
| Reimports.ForcedSucceedsIff | scripts/import-codex-session.mjs:928-1080 | a forced import that is not refused succeeds exactly when its project's creation is not in the log already and no message or activity of the session is another thread's |
| Reimports.ForcedEqualsFresh | scripts/import-codex-session.mjs:928-1080 | over any earlier copy a forced import leaves the thread, message, activity, turn and session rows that a fresh import of the session leaves, each in the project it found or made, or, where that condition fails, leaves everything as it was |
| Reimports.ReimportChangesNoRow | scripts/import-codex-session.mjs:655-708 | once a session is imported a forced import of it succeeds and changes none of these rows, though event ids shift; only the project can differ, and only between two last updated together |
| Reimports.ImportKeepsIds | scripts/import-codex-session.mjs:679-690 | imports keep every generated event id naming its event's stream |
| LaterReimports.ImportKeepsOthers | scripts/import-codex-session.mjs:928-1080 | an import leaves the rows of every other thread alone |
| LaterReimports.ReimportAfterRun | scripts/import-codex-session.mjs:928-1080 | after any number of imports of other threads, the rows are what they were, and a forced import of the session succeeds exactly when it is not refused and its project need not be created twice, changing none of them but perhaps the project |
| LaterReimports.GoneProjectBlocks | scripts/import-codex-session.mjs:663-708 | once an import has created its project, no import of the session for that root without a project to pick succeeds while project events stay in the log, whatever its thread, title or model, unless it is forced under the id of the project itself |
| LaterReimports.DeletionBlocksReimport | scripts/import-codex-session.mjs:663-708 | from empty tables: import, deletion of the project, and a forced import that is not refused and fails |
| Bookkeeping.ImportMovesCursors | scripts/import-codex-session.mjs:1103-1114 | no cursor goes back, and after a successful import all nine named ones are at or past every event |
| Bookkeeping.RunNeverMovesBack | scripts/import-codex-session.mjs:1103-1114 | the same over every run |
| ResumeLaws.ProceedsExact | scripts/import-codex-session.mjs:590-661 | an import goes ahead exactly when session, root and title are given and it is not refused: a forced one when the id occurs in the cursor of another thread of the provider, an ordinary one when the thread exists or the id occurs in any cursor |
| ResumeLaws.ResumeTextExact | scripts/import-codex-session.mjs:839-848 | the JSON text of a cursor |
| ResumeLaws.EscapeRoundTrip | scripts/import-codex-session.mjs:113-115 | escaping a text for JSON loses nothing: the string stands for the text |
| Bookkeeping.CodexSelfFound | scripts/import-codex-session.mjs:623-632 | for Codex, the LIKE query finds every cursor of a session exactly when the id occurs in its own escaped cursor text |
| Bookkeeping.ClaudeSelfFound | scripts/import-codex-session.mjs:623-632 | for Claude, whenever it occurs in its own escaped text between the fixed text around it; which thread, message and turn count the cursor names does not matter |
| Bookkeeping.PlainIsSelfFound | scripts/import-codex-session.mjs:623-632 | an id without JSON escapes is always found |
| Bookkeeping.BackslashIsSelfFound | scripts/import-codex-session.mjs:623-632 | so is a backslash, which needs one |
| Bookkeeping.ControlIsMissed | scripts/import-codex-session.mjs:623-632 | a Codex id with a control character is not |
| Bookkeeping.ImportKeepsBoundOnce | scripts/import-codex-session.mjs:638-661 | an import keeps a session whose cursors are found bound to at most one thread of its provider |
| Bookkeeping.RunKeepsBoundOnce | scripts/import-codex-session.mjs:623-661 | over every run, at most one thread per provider resumes such a session |
| Bookkeeping.BoundOnceIff | scripts/import-codex-session.mjs:623-661 | imports keep a session bound to at most one thread, from every database, exactly when the query finds every cursor written for it |
| Bookkeeping.BoundOnceAfterIff | scripts/import-codex-session.mjs:638-661 | one successful import, for either provider, keeps its session bound once exactly when the query finds every row of another thread that resumes it |
| Bookkeeping.MissedIsBoundTwice | scripts/import-codex-session.mjs:623-661 | for each cursor the query misses, a database and an ordinary import that bind the session twice |
| Bookkeeping.LineBreakBindsTwice | scripts/import-codex-session.mjs:623-641 | a line break as session id can be bound twice |

## Left out

- Tables.UpsertExposureKeepsKeys: key uniqueness is proved of the statements instead of taken from SQLite; types, defaults and indexes of columns are not modelled.
- Tables.SweepIsInvisible: assumes that no write in between meets the label of another key's row the sweep would have removed, because the sweep is meant to let such a write succeed; `Tables.SweepAndUpsert` says exactly when.
- Relay.RunKeepsGood: container ids are twelve or more hexadecimal digits, as Docker gives them, and the clock is after 1970.
- Reconciling.Reconcile: the container list, addresses, probe answers and clock readings are inputs; errors of Docker, HTTP or the store appear in `Relay`, as a pass cut short or one that goes on without a write.
- App.RelayApp.HandleEnvironmentStatus: response bodies, authentication and pairing are not modelled, nor is the split of request paths.
- Mounts.PathHasPrefixExact: and the other laws on mount paths hold for absolute paths none of whose components ends in white space, which takes in every path free of white space. Of a mount without a source only the destination need be one.
- MountTree.ExpansionExact: the tree below the root is finite and readable, its root is no symlink, and names are pairwise different and contain no slash; entries of equal lower-cased name may be listed in either order.
- Bridge.DeliveryIsFaithful: a copy error other than an expired deadline is not modelled; goroutines, the wait group and logging appear as interleaved steps of two lanes and a release.
- Sessions.ParseCodexSession: works on records whose JSON is already parsed; record counts, the working directory and ids that are not strings are left out.
- ClaudeSessions.ParseClaudeSession: the same; tool inputs and results are opaque texts.
- ImportDatabase.Database.Run: argument parsing, the search for the session file, the live-server check, integrity checks and the backup copy are not modelled.
- ImportLaws.WrittenReplays: of a thread row, latest turn and latest user message are written by the importer alone and not replayed; turn and runtime rows have no events. The last update that the creation payload carries is the creation time; the events after it move it on.
- Bookkeeping.RunKeepsBoundOnce: LIKE is taken as substring search; its wildcards and case folding, which can only refuse more imports, are not modelled. Runtime rows of the two providers hold cursors of the importer's form to begin with.
- Bookkeeping.ClaudeSelfFound: one way, because an id may also be found in text around it that depends on the thread or the message; `Bookkeeping.BoundOnceAfterIff` is exact for the rows stored.
- Reimports.ForcedEqualsFresh: rows are compared, not event ids, sequences or ingestion times, which do differ.
- The importer's table definitions are not part of this repository: the keys its statements rely on (ids of events, threads, messages, activities, sessions and runtimes, thread and turn of turns, projector names) are assumed to be primary keys.
- Events of other programs in the log are replayed only as project deletions or as moving the last update of their thread.
- Letters are lowered in ASCII only, and lengths count characters, not bytes.
- The DNS responder, SSH gateway, reverse proxy, Caddy registration, mount page and feature scripts are input and output plumbing around this logic.
