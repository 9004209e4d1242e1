# A verified model of Platform BOM

Platform BOM inventories what runs in a set of environments, compares it with platform releases and with upstream
releases, and serves the result. This project models its core in Dafny and proves what the core promises.

| files | what they model |
|---|---|
| `RefreshProtocol`, `RefreshInvariant`, `RefreshLaws`, `RefreshHistory`, `UpstreamRounds`, `Service` | the caches of the service. Any number of calls run as threads with program counters over two locks, a clock, discovery workers and upstream fetches; a step is a lock operation, a read of fields under a lock that keeps writers out, the one unlocked read, or the write of one field. `Service` is the same code for one call at a time |
| `Operator`, `Resources`, `Snapshots` | the event loop that rebuilds the served configuration from four stores through a one-slot channel, the build itself, and when its separate reads make a snapshot |
| `Version`, `VersionLaws`, `Text` | the lenient version parser, the printer, the order and the match relation |
| `Matrix`, `MatrixLaws`, `MatrixMeaning`, `DriftCommand` | the component by environment matrix, its conservation laws, what it says in terms of releases, inventories and upstream versions, and the drift command |
| `Updates`, `UpdatesLaws` | upgrade advice and its agreement with the matrix |
| `Discovery`, `Collection` | collecting evidence and resolving versions from it |
| `Upstream`, `UpstreamLaws`, `UpstreamOverlap` | the upstream client with its memory, disk and rate-limit state, over runs in which new clients replace old ones, and in which calls of different slugs overlap |
| `Releases`, `Draft`, `Sorting` | sorting, cutting, diffing and drafting releases |
| `Images` | image references and catalog patterns |
| `Failures` | inputs at which expected properties fail |
| `Model`, `Options`, `Iteration` | shared data; ranging over a Go map in any order |

Code that updates state is a method over the fields or arrays the program updates, proved against a specification
function or predicate; the laws are lemmas about those, and for each operation some of them say what it computes in
terms of its input alone: names, numbers and listed entries. Loops over Go maps visit the keys in an order that nothing
depends on. A property that is false of the code as first put comes with its exact condition, and with a run or input
that shows it fails:

- Agreement of matrix and advice, monotone assessment, transitive matching and convexity each hold exactly under the
  condition named in the lemma. Drafting again after an unnamed release reports targets again, and an image behind a
  mirror may be taken by a component of an earlier name. `Failures` has an input for each, and for a release cut from a
  list that repeats names.
- Upstream results can get older, or be lost, exactly as `ServesLastFetchExactly` and `ResultsGoBackExactly` say, and a
  reset is forgotten exactly when the client that heard it is replaced (`RespectsRateLimit`).
- Two slugs can share a cache file, exactly as `CollisionExactly` and `CollisionServesAnotherExactly` say.
- A build reads what the stores held at one time if no pair of changes tears it and, where contents never come back,
  only then (`ReadsSnapshotExactly`); what is served when everything is quiet is right all the same
  (`QuietServesCurrent`).
- An upstream round can overwrite the result of a newer one, exactly as `UpstreamGoesBackExactly` and
  `OverwritableExactly` say; discovery rounds cannot.
- The version order ties prereleases of equal numbers, unlike section 11 of Semantic Versioning 2.0.0, as the code does.

Platforms have unique environment names, which `validatePlatform` enforces. Unique component names are a precondition
where they matter: `ListingIsUnique` proves them for live inventories, exported files may repeat names. Rows marked
**Main** are the results that the others lead up to.

## Model

| member | source | states |
|---|---|---|
| RefreshInvariant.RunKeepsInvariant | internal/service/service.go:344-461 | **Main.** Every reachable state of the protocol, for any calls, clock, worker results and interleaving, satisfies the invariant: who holds which lock, what is published, what each call knows at its program point |
| RefreshInvariant.StepKeepsLocks | internal/service/service.go:64-65 | The two locks are held by exactly the threads whose program point says so, and no reader runs beside a writer |
| RefreshInvariant.ReadersSeeWhole | internal/service/service.go:394-396 | Whoever holds the read lock finds fields as one publication left them, although writers assign them one by one |
| RefreshLaws.RoundsNeverOverlap | internal/service/service.go:355-396 | **Main.** At most one call is in a discovery round; rounds do not overlap in time, and each starts at least one second after the previous publication |
| RefreshLaws.PublishedNeverChanges | internal/service/service.go:363-397 | **Main.** From the moment a map is published, no later step of any call changes it, and publications are never lost from the history |
| RefreshLaws.ReturnedInventories | internal/service/service.go:344-398 | **Main.** Every inventory map returned was published and has exactly one entry per environment, reachable or not; without refresh it was younger than max(ttl, 1 s) when the call decided or made by the call itself, with refresh younger than 1 s or its own |
| RefreshLaws.UnlockedReadIsJudged | internal/service/service.go:355-362 | **Main.** The read of invs outside mu returns the very snapshot that was judged fresh under the lock, still the last one published |
| RefreshLaws.CachedUpstreamIsOneRound | internal/service/service.go:437-440 | Whenever no writer is active, cached releases and errors come from one round and share no key |
| RefreshLaws.UpstreamCovered | internal/service/service.go:400-461 | **Main.** Each requested name that has an upstream comes back in exactly one of the two maps, from the cache or from a fresh round |
| RefreshLaws.UpstreamRecent | internal/service/service.go:406-411 | Releases taken from the cache were younger than the lifetime when the call decided, and the call did not ask for a refresh |
| UpstreamRounds.UpstreamGoesBackExactly | internal/service/service.go:413-440 | **Main.** For every run and two publications of upstream rounds: the later one is of an older round exactly when, at the step at which the round of the earlier one began, the round of the later one was under way, begun before then and not in line for the lock |
| UpstreamRounds.OverwritableExactly | internal/service/service.go:413-440 | **Main.** A call about to begin a round can, in some continuation, have its result overwritten by that of an older round exactly when another call is fetching, since before now, and not yet in line for the lock |
| UpstreamRounds.EachPublishesOnce | internal/service/service.go:437-440 | Each call publishes at most one upstream round |
| UpstreamRounds.InLinePublishesFirst | internal/service/service.go:437-440 | A call in line for the lock when another has not published publishes before it |
| UpstreamRounds.OthersReturn | internal/service/service.go:400-444 | All other calls can return while one stays in its fetches |
| UpstreamRounds.SlowRoundOverwrites | internal/service/service.go:413-440 | A reachable run in which a slow round overwrites a newer result |
| RefreshLaws.FetchesBounded | internal/service/service.go:414-435 | In every reachable state a round has at most four fetches running, all for requested names with an upstream |
| RefreshLaws.CachedInputConsistent | internal/service/service.go:326-342 | Cached input has published inventories with one entry per environment, and releases and errors of one round |
| RefreshLaws.ResultsNeverGoBack | internal/service/service.go:347-444 | **Main.** A call that starts after another has returned never gets an older publication than that one did, whichever of the four calls they are |
| RefreshLaws.NoHoldAndWait | internal/service/service.go:353-356 | Nobody waits for refreshMu while holding or awaiting mu |
| RefreshLaws.WaitsExactly | internal/service/service.go:64-65 | What the locks keep from going on, exactly: a reader or a new writer while a writer waits or writes, the first writer in line while others read, and a call that wants refreshMu while another has it |
| RefreshLaws.OutsideNeverWaits | internal/service/service.go:344-444 | In any state time may pass and any call may start |
| RefreshLaws.NeverStuck | internal/service/service.go:344-444 | **Main.** No reachable state is deadlocked: while a call has not returned, some thread can take a step |
| RefreshLaws.StepsBounded | internal/service/service.go:344-444 | **Main.** The steps of any run are bounded by the calls it starts: a measure falls with every step of every thread |
| RefreshLaws.AllReturn | internal/service/service.go:344-444 | When no step is possible any more, every call has returned |
| RefreshLaws.EveryCallCanReturn | internal/service/service.go:344-444 | **Main.** From every reachable state, steps alone can bring every call to its return |
| RefreshHistory.RoundsAreNeeded | internal/service/service.go:347-362 | **Main.** Discovery is never needless: a call that makes a round, or returns its own, found at its check that it refreshes or that nothing younger than the lifetime is published, and then, under refreshMu, nothing younger than a second |
| RefreshHistory.FetchesAreNeeded | internal/service/service.go:402-412 | **Main.** Nor is fetching: a call that makes an upstream round found that it refreshes, that nothing younger than the lifetime is published, or that the last round leaves out a wanted name with an upstream |
| RefreshHistory.EntriesAreDiscovered | internal/service/service.go:364-392 | **Main.** In every run each entry of the map of a round is what the worker of that environment brought: its inventory, or no components and its error |
| RefreshHistory.FetchedIsAnswered | internal/service/service.go:413-436 | Each entry of the two maps of an upstream round is what a fetch of that name in that round answered: releases or an error |
| RefreshHistory.PublicationTimes | internal/service/service.go:355-444 | A round begins when its call, holding refreshMu, has missed at the recheck, and is stamped with the time at which its call holds the write lock; upstream rounds are stamped so too |
| RefreshHistory.CacheIsPreferred | internal/service/service.go:314-342 | A call for cached inventories discovers, and one for cached input gets none, only if it found that nothing had been published |
| RefreshHistory.ClientExactly | internal/service/service.go:402-405 | A call for upstream releases returns nothing, and at once, exactly when there is no client |
| RefreshHistory.FetchStartsExactly | internal/service/service.go:414-426 | A fetch that is left to do can start exactly when fewer than four are running |
| Service.Service.Discover | internal/service/service.go:364-392 | The map of a round has one inventory per environment, failed workers included, whatever order the workers finish in |
| Service.Service.Inventories | internal/service/service.go:344-398 | One call at a time: the cache is served exactly when it is young enough for the call, otherwise a new round replaces it |
| Service.Service.CachedInventories | internal/service/service.go:314-324 | The last inventories at any age; discovery only when there are none |
| Service.Service.CoversNames | internal/service/service.go:446-461 | The early-exit loop answers whether every name with an upstream has releases or an error |
| Service.Service.FetchAll | internal/service/service.go:414-436 | A round partitions the wanted names into releases and errors, whatever the order of the names |
| Service.Service.UpstreamFor | internal/service/service.go:400-444 | The cache serves exactly when it is fresh and covers the names; each wanted name ends in exactly one map |
| Service.Service.Input | internal/service/service.go:463-486 | Every component an inventory holds or a release pins, and that has an upstream, comes with releases or an error, never both |
| Operator.EveryRunKeepsInvariant | internal/operator/source.go:61-121 | **Main.** No lost update: in every run a store that differs from what the latest build read of it has a handler pending or the token set, and what is served is the last build that succeeded |
| Operator.QuietServesCurrent | internal/operator/source.go:84-121 | **Main.** When the loop idles with no token and no pending handler, the last build read exactly the current stores despite its separate reads; the service served is what an undisturbed build of them gives, or the last valid one if they are invalid |
| Operator.SettlesOnCurrent | internal/operator/source.go:61-121 | **Main.** Once the stores stop changing, every maximal run of internal actions is finite, ends quiet and serves the final stores (or the last valid service) |
| Operator.NeverStuck | internal/operator/source.go:111-121 | A state that is not quiet and not stopped always has an internal action enabled |
| Operator.CanSettle | internal/operator/source.go:61-121 | From every reachable state that is not stopped, internal actions alone can bring quiet |
| Operator.InternalRunsEnd | internal/operator/source.go:61-121 | However internal actions interleave, their number is bounded by the work measure |
| Operator.BuildsCoalesce | internal/operator/source.go:61-67 | Besides the first build there is at most one build per handler that ran |
| Operator.HandlersMatchChanges | internal/operator/source.go:61-67 | Each change runs its handler once: the handlers that ran and those pending are the changes made and those pending at first |
| Operator.OutsideNeverWaits | internal/operator/source.go:61-121 | Stores may change, pending handlers may run and a store may list its objects in any order, whatever the loop does |
| Snapshots.ReadsSnapshotExactly | internal/operator/source.go:84-106 | **Main.** For every run and every build in it: the lists read were all current at one time if no store already read changes before one still to be read; and, where contents never come back, only then |
| Snapshots.UntornIsSnapshot | internal/operator/source.go:84-94 | A build that no such pair of changes tears has read what the stores held at one time |
| Snapshots.TornIsNoSnapshot | internal/operator/source.go:84-94 | A build that such a pair tears agrees with the stores at no time, where contents never come back |
| Snapshots.TornBuild | internal/operator/source.go:84-94 | Tearing happens: a run whose build reads store contents that were never there together |
| Operator.Reconciler.Changed | internal/operator/source.go:62-67 | The non-blocking send leaves the token set, full or not |
| Operator.Reconciler.Build | internal/operator/source.go:84-106 | Reads the stores in order up to a foreign item, and swaps in the service exactly when the build succeeds |
| Operator.Reconciler.Receive | internal/operator/source.go:115-119 | Taking the token rebuilds; a failed build keeps the previous service |
| Resources.SelectPlatform | internal/operator/source.go:133-151 | The platform loop computes the selection, with its three errors |
| Resources.SelectedExactly | internal/operator/source.go:133-151 | A platform is selected exactly when the name asked for is there or, with no name, when there is just one |
| Resources.DecodeEach | internal/operator/source.go:158-178 | A decoding loop gives what every object says, in order, or the first failure |
| Resources.DecodedExactly | internal/operator/source.go:158-178 | Decoding succeeds exactly when it does for each object, entry by entry |
| Resources.ResourcesFromObjects | internal/operator/source.go:132-180 | Selection and the three decoding loops in order, first error first, then the service constructor |
| Resources.ValidatePlatform | internal/service/service.go:92-125 | The loops accept a platform exactly when it and each environment are acceptable and no environment name repeats, and rename old offering categories |
| Resources.ServedPlatformIsValid | internal/service/service.go:92-125 | What is served has unique environment names and no offering under a renamed category |
| Resources.CreateService | internal/service/service.go:153-191 | Refuses a bad platform or unnamed release or component; otherwise the validated platform is served, versions default to names, releases are sorted, component objects are laid over the file catalog, inventories are indexed by name |
| Resources.LoadComponents | internal/catalog/catalog.go:74-99 | Object definitions, with their defaults filled in, over those of the builtin catalog and the component directory; refuses an unnamed one |
| Resources.ObjectsOverrideFiles | internal/catalog/catalog.go:72-105 | The served definition of a name is its object's if there is one, else the file definition, if any |
| Resources.SelectedRelisted | internal/operator/source.go:133-151 | Selection does not depend on the order in which the store lists its objects |
| Resources.ObjectOrderIrrelevant | internal/operator/source.go:132-180 | Whether a build succeeds and what it serves (up to the order of tying releases) is independent of all four list orders |
| Resources.SameStoresSameBuild | internal/operator/source.go:84-106 | **Main.** Two builds that read the same stores agree, even if both stopped early at a foreign item |
| Resources.RefusedExactly | internal/service/service.go:92-191 | A configuration is refused exactly when the platform or an environment is not acceptable, an environment name repeats, a release or a component has no name, or the catalog files do not load |
| Resources.ServedExactly | internal/service/service.go:92-191 | **Main.** What is served, field by field: offerings under the categories of today, the releases newest first, object definitions completed (name shown, category other) over the files, and the inventories, each by the last object of its name |
| Resources.VersionsFilledIn | internal/service/service.go:163-174 | A release goes by the name of its object, and by that for a version if it has none |
| Version.DisplayRoundTrip | internal/version/version.go:12-67 | **Main.** For every parseable text, parsing the display form gives the same numbers (saturated ones included) and precision, and the suffix of a prerelease or none |
| Version.DisplayIsCanonical | internal/version/version.go:26-135 | **Main.** Display is idempotent through Parse, ties with what it displays, and matches it |
| Version.NormalizeIdempotent | internal/version/version.go:104-109 | Normalizing twice is normalizing once, for any text |
| Version.ParsedIsFromText | internal/version/version.go:26-42 | What a parsed version can be: saturated numbers, trimmed parts, one-line suffix |
| Version.ParseReads | internal/version/version.go:26-54 | Printing the core numbers with a suffix and parsing gives back exactly that version |
| Version.CompareStringsAntisymmetric | internal/version/version.go:89-101 | The order is total and antisymmetric over all strings, parseable or not |
| Version.CompareStringsTransitive | internal/version/version.go:89-101 | **Main.** The order is transitive over all strings, strictly if one step is strict |
| Version.CompareStringsTies | internal/version/version.go:70-101 | Two strings tie exactly when unparseable and equal, or equal in numbers and prerelease mark |
| Version.MatchesReflexive | internal/version/version.go:113-135 | Every string matches itself |
| Version.FullMatchTies | internal/version/version.go:113-135 | A match on three parts implies a tie in the order |
| Version.MatchesTransitiveExactly | internal/version/version.go:113-135 | **Main.** If a accepts b, then a accepts everything b accepts exactly when a has no more parts than b |
| Version.AcceptsAnIntervalExactly | internal/version/version.go:113-135 | **Main.** The accepted versions form an interval of the order exactly when the declared version is not a three-part prerelease |
| Version.OtherPrerelease | internal/version/version.go:113-135 | For each three-part prerelease there is a tying version it does not accept |
| VersionLaws.LowerExactly | internal/version/version.go:69-101 | **Main.** Which of two strings is lower: the one whose first differing number is smaller, a prerelease below a release of equal numbers, any other text below every version, and such text in dictionary order |
| VersionLaws.PrintedOrder | internal/version/version.go:45-101 | The same of printed versions: raising a number with those before it equal gives a strictly higher version whatever follows; with equal numbers only the prerelease mark decides |
| VersionLaws.CompareTextExactly | internal/version/version.go:89-95 | Text order is dictionary order: the first difference decides, and a proper prefix comes first |
| VersionLaws.ParseExactly | internal/version/version.go:12-42 | **Main.** A text parses exactly when it is white space, perhaps a v, one to three numbers with dots, the rest of a line, and white space; and to these numbers, saturated, and the rest without its separator |
| VersionLaws.PrereleaseExactly | internal/version/version.go:12-59 | A suffix marks a prerelease exactly when one of the eight words, in any case, stands at its start or after a dot, a dash or an underscore |
| VersionLaws.MatchesExactly | internal/version/version.go:113-135 | **Main.** What a declared version accepts: without three numbers, the interval of its major or minor line; with three, what ties with it, as a prerelease only of its own suffix; other text, itself |
| VersionLaws.NormalizeExactly | internal/version/version.go:104-109 | Normalizing keeps the numbers and how many there were and drops the rest; other text stays |
| VersionLaws.DisplayExactly | internal/version/version.go:45-67 | What is shown: the given numbers with dots, and a prerelease's suffix after a dash |
| Text.AtoiItoa | internal/version/version.go:32-40 | Printing a number and reading it back is the identity |
| Matrix.BuildMatrix | internal/analysis/matrix.go:201-340 | **Main.** The nested loops, visiting maps in any order, build the matrix that the independent definition IsMatrix describes: rows, cells, counters, matched release, compliance and summary |
| Matrix.AssessEnvironment | internal/analysis/matrix.go:247-300 | One environment adds its cell to every row, worsens the row freshness and gets its counters |
| Matrix.Classify | internal/analysis/matrix.go:265-290 | The status branches and counters agree with the definition of a cell status |
| Matrix.InitialRows | internal/analysis/matrix.go:207-245 | There is a row for each name in the newest release, in an inventory, or in a resolved target, and no other |
| Matrix.MatchedRelease | internal/analysis/matrix.go:259-264 | The first satisfied release of a discovered environment |
| Matrix.Summarise | internal/analysis/matrix.go:313-338 | The summary loops compute the totals and percentages of the definition |
| Matrix.LookUpRelease | internal/analysis/matrix.go:155-162 | The loop finds what FindRelease defines |
| MatrixLaws.CountersMean | internal/analysis/matrix.go:265-299 | Each counter is the size of the set its name promises, independently of which other rows exist |
| MatrixLaws.Conservation | internal/analysis/matrix.go:265-299 | **Main.** With a resolved target, aligned + drift + missing is the size of the target |
| MatrixLaws.NothingCountedWithoutTarget | internal/analysis/matrix.go:265-299 | Without a resolved target nothing is counted |
| MatrixLaws.CompliantExactlyWhenSatisfied | internal/analysis/matrix.go:176-184 | **Main.** An environment is compliant exactly when its target resolves and is satisfied by what runs |
| MatrixLaws.MatchedReleaseIsNewest | internal/analysis/matrix.go:259-264 | **Main.** A compliant, discovered environment matches a satisfied release that no satisfied release beats, at least as new as its target |
| MatrixLaws.RowFreshnessIsWorst | internal/analysis/matrix.go:147-152 | A row carries the worst freshness of its cells, and one of them has it |
| MatrixLaws.CellInRow | internal/analysis/matrix.go:265-300 | With unique environment names each row holds every environment's cell |
| MatrixLaws.AssessMonotoneExactly | internal/analysis/matrix.go:122-145 | **Main.** An older version is never assessed fresher, exactly except for an older major beside a version out of the support window |
| MatrixLaws.AssessRespectsTies | internal/analysis/matrix.go:122-145 | Versions that tie are assessed alike |
| MatrixLaws.PercentIsNearest | internal/analysis/matrix.go:193-198 | A percentage is -1 exactly for nothing, else within half a point of the ratio and in 0..100 |
| MatrixLaws.TotalsConserve | internal/analysis/matrix.go:313-321 | Summed over environments, aligned + drift + missing is the sum of resolved target sizes |
| MatrixLaws.SummaryAddsUp | internal/analysis/matrix.go:313-338 | **Main.** Summary counters conserve targets and known rows, unsupported is within behind, and both percentages are absent exactly for nothing, else in 0..100 and within half a point |
| MatrixMeaning.TargetExactly | internal/analysis/matrix.go:155-162 | **Main.** A target resolves exactly when some listed release has its name, and then to the first one listed |
| MatrixMeaning.ComplianceExactly | internal/analysis/matrix.go:176-300 | **Main.** An environment of any matrix is compliant exactly when a listed release has the name it aims at, and all that the first one of that name pins is listed in its inventory, last at an accepted version |
| MatrixMeaning.CountersExactly | internal/analysis/matrix.go:247-300 | **Main.** For the first listed release of the target's name: how many of its pins are met, drifted and not listed, how many listed components it does not pin, and that the first three add up to its size; all zero without one |
| MatrixMeaning.MatchedExactly | internal/analysis/matrix.go:259-264 | The matched release is the first listed one of which every pin is met; none without an inventory or such a release |
| MatrixMeaning.RowsExactly | internal/analysis/matrix.go:207-245 | A name has a row, and just one, exactly when the newest release pins it, an environment lists it, or an environment's target pins it |
| MatrixMeaning.AssessExactly | internal/analysis/matrix.go:122-145 | Each grade, and the minor versions behind, as conditions on the numbers of the running and the newest upstream version and the support window |
| MatrixMeaning.CellExactly | internal/analysis/matrix.go:265-297 | **Main.** The cell of each row and environment of any matrix: version, pin, status and grade, from what the inventory lists, what the target pins, upstream and the catalog |
| MatrixMeaning.RowExactly | internal/analysis/matrix.go:207-297 | The pin of the newest release, the newest upstream version, one cell for each environment, and the worst grade of the cells, grade by grade |
| MatrixMeaning.SummaryExactly | internal/analysis/matrix.go:313-338 | The current release is the first one; the summary counts rows, environments, offerings, releases, and rows by grade |
| DriftCommand.Run | internal/cli/matrix.go:119-138 | The counting loops list exactly the drifted and missing cells, and the exit status follows |
| DriftCommand.LinesAgreeWithSummary | internal/cli/matrix.go:119-138 | The drift command finds as much as summary drift + missing |
| DriftCommand.NoDriftExactlyWhenCompliant | internal/cli/matrix.go:119-138 | **Main.** It finds nothing exactly when every environment whose target resolves is compliant |
| DriftCommand.LinesExactly | internal/cli/matrix.go:119-138 | **Main.** A component is listed for an environment exactly when the target pins it and no accepted version of it runs; the line names the target and the pin |
| Updates.BuildUpdates | internal/analysis/updates.go:36-84 | One recommendation per discovered component, most urgent first, whatever the map orders; each as IsUpdate defines |
| Updates.CollectVersions | internal/analysis/updates.go:37-52 | The loops collect the non-empty versions by component and environment |
| Updates.Oldest | internal/analysis/updates.go:86-94 | A least version under the order, whatever the map order; empty when there is none |
| Updates.FindVersion | internal/analysis/updates.go:96-103 | The first release that ties with the version |
| Updates.NewerThan | internal/analysis/updates.go:105-117 | The releases up to the first one that is not newer, at most fifteen |
| Updates.LatestPatch | internal/analysis/updates.go:119-131 | The first newer release of the same minor line |
| UpdatesLaws.NewerRunIsExact | internal/analysis/updates.go:105-117 | **Main.** On sorted releases, stopping at the first older one loses nothing: the result is the first min(15, k) of all k newer releases |
| UpdatesLaws.NothingNewerExactlyWhenLatest | internal/analysis/updates.go:105-117 | The list is empty exactly when the component is assessed as latest |
| UpdatesLaws.LatestPatchIsGreatest | internal/analysis/updates.go:119-131 | On sorted releases the suggested patch is a greatest newer one of its line |
| UpdatesLaws.VersionsInMeans | internal/analysis/updates.go:37-52 | With unique component names, exactly what inventories report is collected |
| UpdatesLaws.RowIsWorstRunning | internal/analysis/matrix.go:292-295 | A row's freshness is the worst assessment of the component's running versions |
| UpdatesLaws.OldestIsWorstExactly | internal/analysis/updates.go:57-66 | The oldest version's assessment is the worst one exactly under the Comparable condition |
| UpdatesLaws.MatrixAndUpdatesAgreeExactly | internal/analysis/updates.go:36-94 | **Main.** For any matrix and any updates of one input, row and recommendation agree on freshness exactly when the versions are comparable: all or none parse, and none is out of the window beside an older major |
| UpdatesLaws.UpdatesHaveRows | internal/analysis/updates.go:36-84 | Every component with a recommendation has a matrix row |
| UpdatesLaws.MostUrgentFirst | internal/analysis/updates.go:74-82 | **Main.** Unsupported before behind a major, a minor, a patch, latest, unknown; on a tie more minor versions behind first; on a tie there by name in dictionary order |
| UpdatesLaws.AdviceExactly | internal/analysis/updates.go:54-73 | Name, newest release, the release that runs, grade, minor versions behind, error, and, on sorted releases, the first fifteen of all newer ones |
| UpdatesLaws.AdviceForWhatRuns | internal/analysis/updates.go:36-66 | **Main.** One recommendation for each component that some environment lists; its versions are those the environments run, and its current version is a least one |
| Discovery.ResolveVersion | internal/discovery/discovery.go:482-509 | **Main.** The one-pass loop with reset returns a result of the two-pass definition: best source, then most frequent, then highest, in any map order |
| Discovery.CountBest | internal/discovery/discovery.go:483-499 | After the reset loop: the best rank, and the count of each version it reports |
| Discovery.ResolvedToNothingExactly | internal/discovery/discovery.go:482-509 | Nothing is resolved exactly when no evidence has a ranked source and a parseable version |
| Discovery.BestRankMeans | internal/discovery/discovery.go:473-499 | The best rank is the least rank of usable evidence |
| Discovery.ResolvedWasReported | internal/discovery/discovery.go:482-509 | The result is the display form of a version that the best source reported |
| Discovery.ResolutionIgnoresOrder | internal/discovery/discovery.go:482-509 | **Main.** Resolution is invariant under permuting the evidence |
| Discovery.ResolutionsTie | internal/discovery/discovery.go:500-508 | Two possible results are equally frequent and tie in the order; otherwise the result is unique |
| Discovery.EveryResolutionIsReachable | internal/discovery/discovery.go:500-508 | **Main.** Each result the definition allows comes out for some map order |
| Discovery.ResolvedBySource | internal/discovery/discovery.go:473-509 | **Main.** A resolution is exactly this: if the API server reported a version that parses, the most frequent, then highest, of those; otherwise the same of packages, then of images, then of charts; otherwise nothing |
| Collection.Collector.Add | internal/discovery/discovery.go:417-430 | Evidence is appended to the one item of its name, created with the first description |
| Collection.Collector.AddUnknown | internal/discovery/discovery.go:432-439 | The same for a component the catalog does not know |
| Collection.Collector.Components | internal/discovery/discovery.go:441-450 | **Main.** Every item resolved and listed once, in strictly increasing name order, with the collection unchanged |
| Collection.ListingIsUnique | internal/discovery/discovery.go:441-450 | A live inventory never repeats a component name |
| Upstream.Filter | internal/upstream/github.go:97-119 | The filter loop and the in-place sort give the kept releases, sorted |
| Upstream.FilterResult | internal/upstream/github.go:97-119 | Exactly the kept releases, newest first |
| Upstream.KeptVersionParses | internal/upstream/github.go:97-119 | A kept version parses with two parts or more, is no prerelease text, and carries its tag's numbers |
| Upstream.KeptExactly | internal/upstream/github.go:97-119 | A release is kept exactly when its tag is the prefix and a version of two or three numbers, and no unwanted prerelease by flag or tag; its version is the tag's, normalized |
| Upstream.PagesExactly | internal/upstream/github.go:260-310 | What two responses add up to: a bad first page decides, a first page of under a hundred ends the list, otherwise the second one decides and adds to it |
| Upstream.PublishedInOrder | internal/upstream/github.go:294-304 | Drafts are skipped, the rest is listed in order |
| Upstream.FetchExactly | internal/upstream/github.go:191-215 | The API is asked exactly when its reset has passed; the feed stands in exactly while it is limited; the new reset is the announced one or an hour from the answer |
| Upstream.SlugExactly | internal/upstream/github.go:33 | A slug is an owner, one slash and a repository, of letters, digits, underscores, dots and dashes |
| Upstream.Client.ReadDisk | internal/upstream/github.go:160-170 | The entry of the slug's cache file, if there is a directory and a file |
| Upstream.Client.Store | internal/upstream/github.go:145-158 | Memory always, disk only when persisted and writable |
| Upstream.Client.FetchAPI | internal/upstream/github.go:260-310 | The page loop reads what the pages add up to, and a limited response moves the reset |
| Upstream.Client.Fetch | internal/upstream/github.go:191-215 | API unless limited, feed when it is or turns out to be |
| Upstream.Client.Cached | internal/upstream/github.go:121-143 | Memory, disk, network, stale disk, in that order, with the whole new state |
| Upstream.Client.Releases | internal/upstream/github.go:83-95 | Nothing for a missing or malformed upstream, otherwise the filtered result of the cached call |
| UpstreamLaws.FilteredReleases | internal/upstream/github.go:97-119 | What the upgrade lists rely on: sorted, and every version parses |
| UpstreamLaws.DiskHoldsLastWritten | internal/upstream/github.go:121-174 | Over any run of calls and client replacements, failed writes included: the disk holds the last fetch of the slug that was written; memory holds the last fetch or, on a client that replaced the one that made it, at most what is on disk |
| UpstreamLaws.ServesLastFetchExactly | internal/upstream/github.go:121-143 | **Main.** Over such runs every result is the last fetch of that very slug, this call included; otherwise, exactly when that fetch was not written, its client expired it or was replaced, and this call brings nothing, it is the last written one |
| UpstreamLaws.ResultsGoBackExactly | internal/upstream/github.go:121-143 | **Main.** A later result for a slug is older or missing exactly when its last fetch is lost in that way and nothing as new as the earlier result was written |
| UpstreamLaws.NeverOlderNeverLost | internal/upstream/github.go:121-143 | When every fetch of the slug is written, results never get older, whichever client serves them, and a failed fetch falls back |
| UpstreamLaws.FailedWriteServesOlder | internal/upstream/github.go:145-158 | Going back does happen after an unwritten fetch, both by expiry and by replacement |
| UpstreamLaws.NoRefetchWithinTTL | internal/upstream/github.go:121-143 | **Main.** While the last fetch is fresh, the network is needed only on a replaced client without a fresh written entry, and then it is needed; on the same client memory serves |
| UpstreamLaws.RespectsRateLimit | internal/upstream/github.go:191-215 | **Main.** The API is asked exactly when a call needs the network and the last announced reset has passed or the client that heard it was replaced; otherwise the feed stands in |
| UpstreamLaws.CacheFileOf | internal/upstream/github.go:172-174 | The cache file of owner/repo is owner__repo.json |
| UpstreamLaws.CollisionExactly | internal/upstream/github.go:172-174 | **Main.** Two slugs share a cache file exactly when equal or when one owner is the other continued through the double underscore |
| UpstreamLaws.SafeOwnersNeverCollide | internal/upstream/github.go:172-174 | Owners without a double or trailing underscore never collide |
| UpstreamLaws.CollisionServesAnotherExactly | internal/upstream/github.go:121-174 | **Main.** Of two different slugs one can be served the other's releases without a fetch of its own exactly when there is a cache directory and their owners are shifted so |
| UpstreamOverlap.ServesLastFetchExactly | internal/upstream/github.go:121-143 | **Main.** However calls of other slugs overlap with it, a call serves the last fetch of its slug, its own included, or, exactly when that is lost to it, the last written one |
| UpstreamOverlap.RespectsRateLimit | internal/upstream/github.go:191-215 | **Main.** With overlapping calls, the API is asked exactly when the network is needed and the reset last announced before the call checked has passed |
| UpstreamOverlap.AnnouncedTooLate | internal/upstream/github.go:191-215 | A run in which a call asks the API although a pending reset was announced after it had checked |
| UpstreamOverlap.UndisturbedIsStep | internal/upstream/github.go:121-143 | A call that nothing overlaps does to the client, and returns, what the sequential client does |
| Failures.MatchingNotTransitive | internal/version/version.go:113-135 | 1.2.0 accepts 1.2, 1.2 accepts 1.2.5, 1.2.0 rejects 1.2.5 |
| Failures.PrereleaseAcceptsNoInterval | internal/version/version.go:113-135 | What 1.0.0-rc.1 accepts is no interval |
| Failures.OlderLooksFresher | internal/analysis/matrix.go:122-145 | Beside 2.5.0 and with a window of three minors, 1.9.0 is assessed fresher than 2.1.0 |
| Failures.RowAndRecommendationDiffer | internal/analysis/updates.go:36-94 | Two environments, at those versions: row and recommendation differ in every matrix and every list of updates |
| Failures.UnnamedReleaseDraftsAgain | internal/draft/apply.go:50-64 | With a release without a name, targets are drafted again and again |
| Failures.EarlierTakesMirror | internal/catalog/catalog.go:229-252 | A component of an earlier name takes only the mirrored path of another one's image |
| Failures.RepeatedNameLosesVersion | internal/release/release.go:73-96 | A release cut from a list that repeats a name without its version is not satisfied by that list |
| Failures.TwoSlugsOneFile | internal/upstream/github.go:172-174 | a/b__c and a__b/c share a cache file |
| Failures.ReplacedClientForgetsReset | internal/upstream/github.go:191-215 | A run in which a new client asks the API before the reset announced to the old one |
| Sorting.SortInPlace | internal/release/release.go:66-70 | The in-place sort computes the sorted sequence |
| Sorting.SortedIsStableSort | internal/release/release.go:66-70 | Sorting gives a permutation, greatest first, keeping the order of ties |
| Sorting.StableSortIsUnique | internal/release/release.go:66-70 | **Main.** Any stable sort gives this one result |
| Releases.Sort | internal/release/release.go:66-70 | Releases sorted newest first, in place |
| Releases.SortedReleases | internal/release/release.go:66-70 | The same releases, newest first |
| Releases.FromInventory | internal/release/release.go:73-96 | The cut release: pinned versions and offerings that are not planned |
| Releases.PinsWhatRuns | internal/release/release.go:73-96 | With unique names, exactly the versioned components are pinned, at their versions |
| Releases.PinsLastVersion | internal/release/release.go:73-96 | For any list: a component is pinned exactly when it is listed with a version, at the last one listed |
| Releases.ReleasedInOrder | internal/release/release.go:73-96 | The offerings of a cut release are those not planned, in order |
| Releases.Compare | internal/release/release.go:146-186 | One change for each name in either release, visiting names in any order, and the offerings added and removed |
| Releases.MinusOf | internal/release/release.go:188-200 | The loop with a set computes the difference, in order |
| Releases.DiffExactly | internal/release/release.go:146-200 | **Main.** In a diff each component of either release has one change: added or removed when only one pins it, upgraded, downgraded or unchanged as the new version is higher, lower or ties; and the offerings of only one release are listed |
| Releases.MinusInOrder | internal/release/release.go:188-200 | A difference keeps order and repetitions |
| Releases.DiffDuality | internal/release/release.go:146-186 | **Main.** A diff read backwards is a diff of the swapped releases |
| Releases.SelfDiff | internal/release/release.go:146-186 | A release differs from itself in nothing |
| Releases.UpgradesCompose | internal/release/release.go:146-186 | Upgrades compose over three releases |
| Releases.DiffPatches | internal/release/release.go:146-200 | **Main.** Patching the old release with a diff gives the new one: components as a map, offerings as a set |
| Draft.SourceEnvironment | internal/draft/apply.go:70-85 | The scan computes the source |
| Draft.SourceIsBest | internal/draft/apply.go:70-85 | The first production environment that found something, else the first that did, else none |
| Draft.SourceExactly | internal/draft/apply.go:70-85 | The source found components; it is the first of those of the production tier or with prod in the name, or the first of all if there is none such |
| Draft.Apply | internal/draft/apply.go:16-66 | **Main.** The result is the specified drafts, on a fresh platform; nothing that existed before the call is modified |
| Draft.ApplyIsIdempotent | internal/draft/apply.go:21-66 | **Main.** A second application changes nothing, and drafts nothing exactly unless an unnamed release left an environment without target |
| Draft.DraftsExactly | internal/draft/apply.go:11-90 | **Main.** What is drafted, field by field: empty offerings and description, release 1.0.0 with its label from what the source runs if there is a source and no release, the first release as target where none is set; and the drafted parts are reported in order |
| Draft.InventoriesInOrder | internal/draft/apply.go:22-27 | Texts are drafted from the inventories of the platform's environments, in order |
| Draft.EveryEnvironmentTargeted | internal/draft/apply.go:50-64 | Whenever there is a named release, every environment ends with a target and keeps the one it had |
| Draft.Release | internal/draft/apply.go:88-90 | What an environment runs now, as a release of the given name |
| Draft.SnapshotIsSatisfiedExactly | internal/draft/apply.go:88-90 | A release of any name cut from what an environment runs is met by it exactly when no repeated name loses its version |
| Draft.CutIsSatisfiedExactly | internal/release/release.go:73-96 | A release cut from components is satisfied by them exactly when no repeated name loses its version |
| Draft.FirstInstall | internal/draft/apply.go:21-90 | After the first install the source environment has nothing missing or untracked, and complies exactly when no repeated name loses its version |
| Draft.FirstInstallShowsNoDrift | internal/draft/apply.go:21-90 | **Main.** With distinct component names the matrix built next lists the environment compliant, running release 1.0.0, with no drift, nothing missing and nothing untracked |
| Images.SplitImageReads | internal/catalog/catalog.go:255-264 | Repository and tag are split off exactly on any path, with ports, tag and digest |
| Images.SplitImageIsLossless | internal/catalog/catalog.go:255-264 | Repository and tag make up the reference without its digest |
| Images.MatchRefExactly | internal/catalog/catalog.go:244-252 | A pattern matches exactly when it matches a trailing path |
| Images.MirrorsMatch | internal/catalog/catalog.go:244-252 | A pattern that matches a repository matches it behind any registry or mirror |
| Images.FirstMatch | internal/catalog/catalog.go:229-239 | What the first matching component is: it matches, and none before it does; none only if no component matches |
| Images.Match | internal/catalog/catalog.go:229-239 | The nested loops with early exit find the first matching component |
| Images.ImageRecognised | internal/catalog/catalog.go:194-264 | **Main.** A recognised repository is recognised behind any mirror, with any tag and digest, as the same component or one of an earlier name; the same exactly when no earlier one accepts the longer path |

## Left out

- Kubernetes, HTTP, YAML, files, Helm and cloud access: their results are parameters (lists of store items, API pages, feeds, discovery answers, decoders).
- Authentication, the web server, metrics, CLI tables and text output: presentation or library code.
- Reloading from files (internal/cli/reload.go): a change between the first load and the first fingerprint is missed, so convergence does not hold.
- Display name, category, kind and part-of of rows, and the display order of rows: `IsMatrix` leaves the row order open, so it covers whatever order the sort gives.
- Explanations, dates, release notes, titles and descriptions of drafts: text; the drafted offerings and description are arbitrary fixed functions of what was found.
- `Catalog.Get` and `path.Match`: arbitrary fixed functions; the catalog files are lookup tables.
- Unicode: `TrimSpace` and case folding are ASCII, and text is compared by character.
- MatrixLaws.PercentIsNearest: rounding is on exact rationals, not on floating-point numbers.
- Matrix.BuildMatrix: display fields and display order of rows are left open, as above; rows are values in a map instead of pointers, as the source reaches each row through the map only.
- RefreshLaws.StepsBounded: bounds the steps of calls and, with `NeverStuck`, excludes deadlock; which waiting thread the scheduler picks, and so fairness to one thread, is not modelled. Cancelled contexts and the two-minute timeout are failed workers.
- RefreshLaws.ReturnedInventories: maps are named by the call that made them; the memory behind Go maps is not modelled further. The `Releases` error of `CachedInput` and `Input` is file access.
- Releases.Compare: display name and category of a change, and the display order of changes, are left out.
- Updates.BuildUpdates: category, homepage, repository and the explanations of a recommendation are left out.
- Resources.CreateService: display name and default directory of the platform, which are left out of `Platform`, and which kinds, names, tokens and file references are acceptable; what the builtin catalog and the component directory define is a fixed function of the platform.
- Operator.QuietServesCurrent: decoding and accepting a platform are fixed functions, so catalog files read during a build do not change; releases of tying versions may come in another order.
- Upstream.Client.Cached: one call at a time (`UpstreamOverlap` has calls of different slugs at once), with a clock that does not run backwards; two calls of one slug at once, a client replaced while a call is under way, other processes at work in the cache directory at the same time, and unreadable or half-written cache files are not modelled.
- Draft.Apply: the slices of offerings and releases, which the source replaces but never writes into, are sequences; the shared environment slice is an array.
