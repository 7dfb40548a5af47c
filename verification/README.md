# imageless, modelled and proved in Dafny

imageless turns an OCI bundle whose image only names a Nix release into a
runnable container. A client plans a request, a node daemon resolves it with
Nix, and the client rewrites the bundle. The project models the parts of that
path with the most state and arithmetic, and proves what they promise:

* **The single-flight resolver** (`Permits`, `Flights`, `FlightProofs`,
  `Materialization`, `Coalescing`, `Bundles`, `Programs`, `ResolverSystem`,
  `Liveness`, `Sections`). Requests with equal keys share one materialization, and a
  counting semaphore bounds Nix operations. Each critical section is one step of a
  state machine; releasing a flight is two, because the decrement and the guarded
  removal take different locks and a late caller can join in between. `Permits.Step`
  and `Flights.Step` are the two machines. `ResolverSystem.Step` runs them together,
  every caller stepping through the program of its own functions, where permits live
  in lexical scopes. `Materialization.Produce` is what one leader's Nix work comes
  to, and `Bundles` puts every caller's own bundle beside the flights. The classes
  of `Sections` are the objects in memory whose methods are proved to be those
  steps. The results: at most one leader per key, exact reference counts and no
  leak, no lost wake-up, at most `max_realizations` Nix commands at once, deadlines
  kept, no deadlock, an end to every schedule that keeps moving, and coalescing that
  gives each caller only what it would have got alone, rooted in its own bundle.
* **Names and policy** (`Text`, `Paths`, `Sources`, `Releases`, `Grammars`). The
  grammars of sources, installables and store paths, the release reference whose
  printed form is the flight key, manifest validation and release selection.
  `Releases.SelectRelease`, `Releases.ValidateRequest` and `Releases.Begin` follow
  the source branch by branch; the lemmas state what a caller can rely on
  afterwards. `Grammars` reads the name grammars a second, independent way.
* **The seed layer and its staging** (`Bytes`, `Ustar`, `Archive`, `Order`, `Trees`,
  `Budgets`, `Packing`, `Packer`, `PackProofs`, `Staging`, `Pruning`, `LayerTrees`,
  `Unpacking`, `LayerContents`, `Utf8`). A byte-level ustar writer with an
  independent reader, the client's directory walk, the writer for generated files,
  an unpacker that applies the entries one by one, and the node's copy of the
  unpacked tree. A tree is a listing in whatever order the file system enumerates
  it. The results: layers read back and hold exactly what the tree holds outside
  version control, bytes are a function of the tree and the tree of the bytes, and
  the two independently written budgets agree.
* **The bundle** (`Decimal`, `GcRoots`, `GcRootProofs`, `EnvironmentMerge`, `Mounts`,
  `MountProofs`, `ClosureQuery`, `Destinations`, `Confinement`, `ConfigWrite`). GC
  roots that Nix writes and nobody trusts, the in-place environment merge, store and
  mount projection, and the document rewrite as a machine that may stop after any
  effect.
* **Reports and capture** (`Reports`, `Capture`). Closure totals in 64-bit arithmetic
  on both sides, and the bounded capture of a child's output.

`dafny verify dfyconfig.toml` verifies everything.

## How to read the model

* Time is a number that only grows; deadlines are values. A timed wait may also
  end early, as condition variables allow, and a timer may fire late.
* Nix is a step: it may fail, and it may leave anything at the one path it was
  given. What makes a result sound is the validation that follows.
* SHA-256, JSON and the size of an encoded response are functions of `Node`. The
  only assumption about them is `NoCollisions`: among the finitely many byte strings
  that the catalogs serve to the node, no two share a digest. `Releases.NoCollisionsIsMet`
  and `Releases.SomeReleaseIsAdmitted` show that it can be met. Coalescing rests on
  it; the permit, flight and liveness results do not.
* A map visited in arbitrary order is visited in arbitrary order here too.
* Functions such as `VisitDir`, `RegisterAll`, `Merged` or `Projected` are the
  specification of a method beside them; the lemmas are about the function and
  reach the method through its `ensures`.

## Where the code and its words differ

* The planner admits a source with an empty scheme (`:x`), and the daemon's scheme
  check does not (`crates/imageless/src/spec.rs:218-275`,
  `crates/imageless/src/resolver.rs:1300-1308`). `Sources.PlannedExternalAdmitted`
  gives the exact condition and `Sources.EmptySchemeDisagreement` the input.
* The manifest's destination check says "absolute and normalized" but admits
  doubled slashes and inner dots (`crates/imageless/src/release.rs:439-453`), and it
  does not look at the store. The projection refuses both at create time
  (`crates/imageless/src/mounts.rs:183-198`), so a valid release can be impossible to
  create. `Destinations.ReleaseProjectsExactly` is the exact condition;
  `Destinations.AdmittedButMisspelled`, `Destinations.AdmittedButTheStore` and
  `Destinations.AdmittedButTheRoot` are inputs.
* A rooted path of 101 bytes without a second slash in reach is written but reads
  back without its leading slash (`crates/kubectl-imageless/src/pack.rs:339-356`).
  `Archive.LayerRoundTrip` says exactly when a list survives, `Archive.RootIsLost`
  what comes back otherwise; the packer only writes unrooted paths, which survive.
* A failed resolve does not restore a clean bundle if the Nix call that failed left
  something other than a link: removal never touches it
  (`crates/imageless/src/gc.rs:117-127`). `GcRootProofs.FailureRestoresExactly` is
  the exact condition and `GcRootProofs.FileIsLeftBehind` an input.
* A follower is handed its leader's error, so a request can fail with a timeout
  before its own deadline (`crates/imageless/src/resolver.rs:386-401`).
  `FlightProofs.WhoseError` says exactly when an error is the follower's own, and
  `FlightProofs.BorrowedTimeout` gives the state.

## Model

| member | source | states |
|---|---|---|
| Permits.CheckPreserves | crates/imageless/src/resolver.rs:1217-1230 | the mutex section of a permit acquisition, whatever it decides, keeps the count exact, the limit, and every sleeper covered by free permits' wake-ups |
| Permits.BlockedIsFull | crates/imageless/src/resolver.rs:1218-1224 | whoever goes to sleep found every permit taken, so no wake-up is owed |
| Permits.DropPreserves | crates/imageless/src/resolver.rs:1258-1264 | dropping a permit never underflows the count, and its one notification keeps the wake-up balance |
| Permits.RunsAreSafe | crates/imageless/src/resolver.rs:1212-1264 | in every state of every run: `active` is the number of live permits, at most `max`, and while anyone sleeps the woken-but-not-run callers number at least the free permits |
| Permits.ChecksAreExact | crates/imageless/src/resolver.rs:1217-1230 | in every run, a check turns a caller away exactly when its deadline has passed and every permit is out, takes a permit exactly when one is free, and only otherwise sends the caller (back) to sleep |
| Permits.LateSleeperIsSettled | crates/imageless/src/resolver.rs:1220-1228 | once its deadline has passed a sleeping caller's timer can go off, and the check after it settles the call |
| Permits.SleepersAreCovered | crates/imageless/src/resolver.rs:1218-1263 | with at least one permit, somebody asleep means a holder or a notified caller that can move |
| FlightProofs.StepPreserves | crates/imageless/src/resolver.rs:365-406 | every critical section keeps the whole single-flight invariant, including the gap inside `release_flight` |
| FlightProofs.RunsKeepInv | crates/imageless/src/resolver.rs:365-406 | the invariant holds in every state of every interleaving |
| FlightProofs.AtMostOneLeader | crates/imageless/src/resolver.rs:365-391 | at most one caller per key materializes |
| FlightProofs.LeaverIsCounted | crates/imageless/src/resolver.rs:1236-1241 | the caller count never underflows: whoever leaves is counted |
| FlightProofs.LeaderIsCounted | crates/imageless/src/resolver.rs:1236-1241 | a follower that gives up is never the last caller of an unfinished flight |
| FlightProofs.MappedMeansBusy | crates/imageless/src/resolver.rs:365-406 | a key stays mapped only while some caller is on a flight with that key |
| FlightProofs.QuietKeyLeadsFresh | crates/imageless/src/resolver.rs:366-382 | a caller that joins when no other request with its key is active leads a fresh flight without a result, so no old failure is replayed |
| FlightProofs.RemovalIsExact | crates/imageless/src/resolver.rs:1242-1249 | removal takes away the removed flight's own entry and nothing else, never a newer flight under the same key |
| FlightProofs.ResultsAreFinal | crates/imageless/src/resolver.rs:392-395 | a published result is never overwritten |
| FlightProofs.LookIsExact | crates/imageless/src/resolver.rs:1266-1281 | a follower that looks takes the published result; without one it gives up exactly when its own deadline has passed, with a retryable timeout, and only otherwise waits on |
| FlightProofs.WhoseError | crates/imageless/src/resolver.rs:386-401 | a follower's error after waiting is its own exactly when its flight has no result yet, and then it is a timeout past its own deadline; otherwise it is what the leader published |
| FlightProofs.FollowersKeepDeadlines | crates/imageless/src/resolver.rs:1266-1281 | in every run a look at or after the follower's deadline ends its wait |
| FlightProofs.OutcomesAreFinal | crates/imageless/src/resolver.rs:396-406 | in every run, leaving a flight changes nothing about the outcome that is returned |
| FlightProofs.LeaderReturnsWhatItPublished | crates/imageless/src/resolver.rs:391-406 | what a leader returns is what it published, which every follower of its flight finds from then on |
| FlightProofs.FollowerErrors | crates/imageless/src/resolver.rs:386-401 | the same in every run, where no timer goes off before its deadline |
| FlightProofs.BorrowedTimeout | crates/imageless/src/resolver.rs:386-401 | so a follower with time to spare can be handed the leader's timeout |
| Sections.ResolverInner.Join | crates/imageless/src/resolver.rs:366-382 | the join on the real map and flight objects is the join step of the machine, and the returned flight is the one joined |
| Sections.ResolverInner.Publish | crates/imageless/src/resolver.rs:392-395 | publication on the object is the publish step |
| Sections.ResolverInner.Leave | crates/imageless/src/resolver.rs:1237-1241 | the decrement is the leave step, and it reports exactly whether the count reached zero |
| Sections.ResolverInner.Remove | crates/imageless/src/resolver.rs:1242-1249 | the removal guarded by object identity is the remove step |
| Sections.Flight.Look | crates/imageless/src/resolver.rs:1266-1281 | what the follower's mutex section returns, from the result, its timer and its deadline |
| Sections.LookIsStep | crates/imageless/src/resolver.rs:1266-1281 | that answer is the one the machine's look step acts on |
| Sections.PermitPool.Check | crates/imageless/src/resolver.rs:1217-1234 | the counter under its mutex makes the decision of the permit machine and stays equal to its count; it expires exactly when late and full |
| Sections.PermitPool.Drop | crates/imageless/src/resolver.rs:1258-1264 | dropping a permit is the machine's drop step and leaves the count nonnegative |
| Materialization.MaterializeInto | crates/imageless/src/resolver.rs:594-764 | the leader's calls on its bundle, for a release, a closure or a development source, return and leave exactly what the value function says, whatever Nix does |
| Materialization.MaterializeYields | crates/imageless/src/resolver.rs:594-764 | a materialization that succeeds yields what its own job asks for, whatever Nix did |
| Materialization.MaterializeRoots | crates/imageless/src/resolver.rs:594-764 | and leaves a validated root for every store path of what it yields |
| Materialization.EvaluationSaysOnePath | crates/imageless/src/nix.rs:10-26 | an evaluation is taken at its word exactly if one line says a store path and every other line is blank |
| Materialization.DevelopsExactly | crates/imageless/src/resolver.rs:670-764 | a development source is materialized exactly when nothing foreign is at the root, the evaluation says one store path, and registering it leaves a link to that path |
| Materialization.MaterializationIsUndone | crates/imageless/src/resolver.rs:384-405 | materializing, however far it came, and then removing leaves what removing alone would have left, as long as Nix left only links |
| Materialization.WillingSucceeds | crates/imageless/src/resolver.rs:594-764 | in a clean bundle it can always succeed, if Nix does what it is asked |
| Coalescing.MaterializedFits | crates/imageless/src/resolver.rs:384-395 | so what a leader publishes fits its own job |
| Coalescing.SharedResultFits | crates/imageless/src/resolver.rs:386-401 | a result that fits the leader fits every follower with the same key, when no two served manifests share a digest |
| Coalescing.StepKeepsFaithful | crates/imageless/src/resolver.rs:346-401 | no step lets anybody hold a resolution that its own selection does not yield |
| Coalescing.CoalescingRefinesAlone | crates/imageless/src/resolver.rs:346-406 | whatever the interleaving, an `Ok` returned to a caller is a resolution its own request yields; for a release its rootfs, process, mounts and identity are word for word what the manifest of the caller's reference states for this node, and the manifest is open to the caller's own container |
| Coalescing.AloneIsUnique | crates/imageless/src/resolver.rs:773-877 | for a release or a closure there is only one such resolution, so sharing gives exactly what running alone gives |
| Bundles.ReturnedMeansRooted | crates/imageless/src/resolver.rs:384-405 | an `Ok` returned to any caller, leader or follower, means that in its own bundle root 0 links to the rootfs and the roots after it to the mounts' sources in order; an `Err` after the join, that nothing removable is left there |
| Bundles.ReturnedIsOwnAndRooted | crates/imageless/src/resolver.rs:346-406 | with coalescing: the resolution returned is the caller's own, granted to it, and rooted in its own bundle |
| Programs.ProgramsAreDisciplined | crates/imageless/src/resolver.rs:670-764 | statement by statement, every Nix command of the resolver runs inside a permit's scope, a permit is taken only for the command that follows, none is asked for inside the scope of another, every drop closes a scope and none stays open: the evaluation's permit is gone before its root is registered |
| Programs.LeaderRunsNix | crates/imageless/src/resolver.rs:594-764 | a leader runs Nix once for each store path of a release, once for a closure and twice for a development source, under a permit for each command |
| ResolverSystem.StageRunsNix | crates/imageless/src/resolver.rs:1126-1163 | what a stage of the composed system runs: a follower one command and one acquisition for each store path it was handed, a leader as many as its request needs |
| ResolverSystem.StepPreserves | crates/imageless/src/resolver.rs:594-764 | flights, permits and the callers' programs running together keep both invariants and their coupling |
| ResolverSystem.RunsKeepInv | crates/imageless/src/resolver.rs:365-406 | so does every run of the composed system |
| ResolverSystem.AskersHoldNothing | crates/imageless/src/resolver.rs:617-764 | a caller at an `acquire_permit`, or blocked in one, is in no permit's scope |
| ResolverSystem.PermitsDoNotNest | crates/imageless/src/resolver.rs:594-764 | in every reachable state a caller that asks for a permit holds none, no caller is in the pool twice, and a caller waiting on a flight is not in it; nothing in the steps forbids it, the programs do not |
| ResolverSystem.CommandsAreBounded | crates/imageless/src/resolver.rs:617-764 | in every reachable state at most `max_realizations` Nix commands run, those of leaders, followers and inspections together, each by the holder of a permit |
| ResolverSystem.RunsStayFaithful | crates/imageless/src/resolver.rs:346-406 | every outcome in the composed system fits the job of whoever has it |
| Liveness.HolderMoves | crates/imageless/src/resolver.rs:1254-1264 | whoever holds a permit has an enabled step that is neither a timeout nor a fault |
| Liveness.AdvancesDecrease | crates/imageless/src/resolver.rs:365-406 | every step of a caller's own, that is not an arrival, a timer going off or the clock, lowers a measure of the remaining work |
| Liveness.NeverStuck | crates/imageless/src/resolver.rs:365-406 | for every `max_realizations` of at least one, a state that satisfies the invariant and has an unfinished request has an enabled step that waits for no timer, in which nobody gives up at a deadline and nothing fails |
| Liveness.RunsNeverStick | crates/imageless/src/resolver.rs:365-406 | so in every reachable state |
| Liveness.AdvancesAreBounded | crates/imageless/src/resolver.rs:365-406 | no sequence of such steps is longer than the measure of its first state |
| Liveness.BoundExists | crates/imageless/src/resolver.rs:365-406 | such a measure is defined for every state |
| Liveness.StoppedMeansFinished | crates/imageless/src/resolver.rs:365-406 | when no step of that kind is left every request has returned, the map is empty and no permit is out |
| Releases.PrintParsed | crates/imageless/src/release.rs:63-91 | printing a parsed reference gives back the string, and what parses is valid |
| Releases.ParsePrinted | crates/imageless/src/release.rs:63-116 | parsing a printed valid reference gives it back; it is at most 264 bytes, under the parser's limit |
| Releases.KeyInjective | crates/imageless/src/materialize.rs:18-24 | keys of requests with valid references are equal only for equal requests |
| Releases.UnvalidatedKeysCollide | crates/imageless/src/materialize.rs:18-24 | without validation two different references print alike, so the guarantee does rest on it |
| Releases.ValidateProcess | crates/imageless/src/release.rs:395-437 | the looping validator accepts exactly the processes with distinct, well-formed environment names and admissible arguments and directory |
| Releases.ValidateMounts | crates/imageless/src/release.rs:312-319 | the looping validator accepts exactly the mount lists with valid sources and valid, distinct destinations |
| Releases.ValidateManifest | crates/imageless/src/release.rs:276-338 | identity mismatch is reported exactly when schema, issuer or name differ, and success exactly for well-formed manifests, in any order of targets |
| Releases.SelectedReferenceIsValid | crates/imageless/src/resolver.rs:773-851 | a reference that survives selection is valid and parses, even if it was deserialized without parsing |
| Releases.SelectionIsAuthorized | crates/imageless/src/resolver.rs:773-877 | selection succeeds exactly when policy and manifest authorize it and the answer fits a frame |
| Releases.SelectionIsTheTarget | crates/imageless/src/resolver.rs:845-876 | what it selects is word for word the manifest's target for this system, rootfs, process and mounts, under an identity that parses back to the reference, with the policy's cache; a running container is one the manifest is open to, and every path to realise is valid |
| Releases.PolicySpeaksFirst | crates/imageless/src/resolver.rs:781-815 | a release the policy does not allow is refused whatever was fetched, and a fetch error is passed on |
| Releases.RefusalsTell | crates/imageless/src/resolver.rs:815-844 | an oversized manifest and a wrong digest are reported exactly as that, and a missing target exactly when the manifest is accepted and open to the container |
| Releases.AcceptedBytesAreCanonical | crates/imageless/src/release.rs:248-274 | a manifest has one accepted encoding, hence one digest |
| Releases.AdmissionIsExact | crates/imageless/src/resolver.rs:463-592 | when a request gets as far as the flights: version, time limit, bundle, purpose and target, with the worker's grammar for installables and the policy's prefixes |
| Releases.AdmittedRequestIsBounded | crates/imageless/src/resolver.rs:340-365 | what it carries there: a deadline within its own and the node's limit, its own key and its own selection |
| Releases.SelectionsAgree | crates/imageless/src/resolver.rs:773-877 | two callers that both pass selection get the same resolution and cache, whatever each fetched |
| Releases.JobsAgree | crates/imageless/src/resolver.rs:346-365 | admitted requests with equal keys ask for the same thing and selected the same release |
| Releases.AdmittedIsGranted | crates/imageless/src/release.rs:129-135 | what an admitted request selected is stated by a served manifest with the reference's digest, which lists the caller's container or none and does not skip it |
| Releases.NoCollisionsIsMet | crates/imageless/src/resolver.rs:773-877 | the assumption about digests can be met: any well-formed manifest under any policy that authorizes it is selected on some node without collisions |
| Releases.SomeReleaseIsAdmitted | crates/imageless/src/resolver.rs:773-877 | and such manifests and policies exist |
| Sources.GrammarsAgree | crates/imageless-resolver/src/dev_resolver.rs:129-147 | the daemon's and the worker's installable grammars accept the same strings |
| Sources.PlanSplitsBack | crates/imageless/src/spec.rs:50-65 | a planned installable splits at its last `#` into exactly the joined source and the output |
| Sources.PlannedInImageAdmitted | crates/imageless/src/spec.rs:50-65 | an installable planned from an in-image path passes the daemon exactly when the rootfs text has no whitespace, control character or `#` and the whole fits the length limit; it always passes the scheme check |
| Sources.ShortRootfsFits | crates/imageless/src/spec.rs:50-65 | a rootfs text of at most 250 bytes always fits, in both grammars |
| Sources.PlannedExternalAdmitted | crates/imageless/src/resolver.rs:1300-1337 | an installable planned from an external source passes both grammars, and the daemon's scheme check exactly when it does not start with a colon |
| Sources.EmptySchemeDisagreement | crates/imageless/src/spec.rs:218-275 | the planner admits an empty scheme, which the daemon refuses |
| Sources.NodeLocalIsRefused | crates/imageless/src/spec.rs:240-273 | no external source has the scheme path, file or flake, in any capitalization, for planner and daemon alike |
| Sources.FileTransportIsRefused | crates/imageless/src/spec.rs:266-271 | nor a transport that ends in +file |
| Grammars.PatternsAreGlobs | crates/imageless/src/release.rs:508-517 | for the patterns that the policy check admits, permitting a release name is ordinary glob matching |
| Grammars.IdentifiersAreLabels | crates/imageless/src/release.rs:100-108 | identifiers are exactly the strings of at most 63 characters that an automaton for DNS labels accepts |
| Grammars.LongestReference | crates/imageless/src/release.rs:100-116 | the bound of 264 bytes on a printed reference is reached |
| Grammars.StoreGrammarsAgree | crates/imageless/src/release.rs:340-378 | the manifest's own store path check accepts the same paths as the request's |
| Ustar.OctalRoundTrip | crates/kubectl-imageless/src/pack.rs:329-333 | a number that fits its field reads back from its zero-padded octal digits |
| Ustar.Octal | crates/kubectl-imageless/src/pack.rs:329-333 | the field holds the digits and one terminating NUL; the rest of the block is unchanged |
| Ustar.SplitName | crates/kubectl-imageless/src/pack.rs:339-356 | fails exactly when a path over 100 bytes has no legal split, and otherwise splits at the rightmost one without losing a byte |
| Ustar.SplitPreservesExactly | crates/kubectl-imageless/src/pack.rs:339-356 | a reader rejoins a split path to the original exactly when it is not rooted, 101 bytes long and without a second place to split |
| Ustar.Header | crates/kubectl-imageless/src/pack.rs:307-327 | fails exactly with the split, and otherwise builds the specified block in place |
| Ustar.ChecksumFits | crates/kubectl-imageless/src/pack.rs:322-325 | the sum of a block is at most 130560, so six octal digits always hold it |
| Ustar.HeaderChecksum | crates/kubectl-imageless/src/pack.rs:314-325 | the stored checksum is the sum of the block with its checksum field blanked |
| Ustar.OwnerAndTimeAreZero | crates/kubectl-imageless/src/pack.rs:307-327 | every header says owner 0, group 0 and time 0 |
| Ustar.HeaderRoundTrip | crates/kubectl-imageless/src/pack.rs:307-327 | a ustar reader recovers path, mode, size and type from a written header and finds its checksum valid |
| Archive.LayerWriter.Append | crates/kubectl-imageless/src/pack.rs:287-300 | appends exactly the entry's header, data and padding, or nothing when the path cannot be split |
| Archive.LayerIsWholeBlocks | crates/kubectl-imageless/src/pack.rs:287-304 | a layer's length is 512 times a header and the padded data of each entry plus two |
| Archive.LayerRoundTrip | crates/kubectl-imageless/src/pack.rs:287-356 | a finished layer reads back as exactly its entry list if and only if no stored path is in the family that loses its leading slash |
| Archive.UnrootedSurvives | crates/kubectl-imageless/src/pack.rs:287-356 | so every list of unrooted paths reads back |
| Archive.RootIsLost | crates/kubectl-imageless/src/pack.rs:339-356 | the family that loses its slash is not empty, and this is what comes back |
| Archive.HeaderTells | crates/kubectl-imageless/src/pack.rs:264-300 | any reader finds in the header of a written directory mode 0755 and type 5, and in that of a file its own mode and type 0, and then its data |
| Budgets.Budget.ChargeBytes | crates/kubectl-imageless/src/pack.rs:110-119 | the saturating add never changes the verdict, which is about the exact sum |
| Budgets.StagingBudget.CountBytes | crates/imageless/src/resolver.rs:1529-1532 | the same for the node's budget |
| Budgets.StagingBudget.CountEntry | crates/imageless/src/resolver.rs:1494-1497 | the same for the node's saturating entry count |
| Packer.PackDirectory | crates/kubectl-imageless/src/pack.rs:175-243 | the walk succeeds exactly when the visit is acceptable on top of what was charged, and then leaves exactly the visit's bytes, charges and skipped directories |
| Packer.PackChild | crates/kubectl-imageless/src/pack.rs:203-241 | the same for one name of the listing |
| Packer.PackSource | crates/kubectl-imageless/src/pack.rs:122-173 | packing a tree computes its layer value, or refuses |
| Packer.PackGenerated | crates/kubectl-imageless/src/pack.rs:52-87 | packing generated files computes their layer value, or refuses |
| Packing.OnlyPathsMatter | crates/kubectl-imageless/src/pack.rs:178-240 | within the byte bound only a path can keep an entry from being written |
| PackProofs.PackingIgnoresOrder | crates/kubectl-imageless/src/pack.rs:183-200 | every enumeration order of every directory, and every mode with the same execute outcome, yields the same layer |
| PackProofs.TwinsAreRefused | crates/kubectl-imageless/src/pack.rs:53-61 | the neighbour test after sorting finds every duplicated name |
| PackProofs.GeneratedAgrees | crates/kubectl-imageless/src/pack.rs:52-87 | a generated layer equals, in bytes, entries, byte count and lock flag, the layer of any directory holding those files |
| PackProofs.PackedTreeReadsBack | crates/kubectl-imageless/src/pack.rs:122-173 | every packed layer reads back as the scaffold and exactly the visited entries, and its totals are theirs |
| LayerContents.WalkHolds | crates/kubectl-imageless/src/pack.rs:175-243 | a walk finds an entry, with the right path, mode and data, for exactly the files and directories that no version-control directory contains; and lists as skipped exactly the outermost .git, .hg, .jj and .svn directories |
| LayerContents.LayerHolds | crates/kubectl-imageless/src/pack.rs:122-173 | so a layer, read back from its bytes, holds the two directories around the tree and exactly that |
| LayerContents.NoVersionControlInLayer | crates/kubectl-imageless/src/pack.rs:213-218 | without the option nothing in a layer has .git, .hg, .jj or .svn as a directory on its path |
| LayerContents.LayerIsAFlake | crates/kubectl-imageless/src/pack.rs:122-173 | only a directory with a flake.nix is packed, and the lock flag is that of flake.lock |
| Utf8.ValidExactly | crates/kubectl-imageless/src/pack.rs:190-199 | the names a layer admits are exactly the encodings of sequences of Unicode scalar values |
| Pruning.PrunedSorts | crates/kubectl-imageless/src/pack.rs:202-218 | leaving directories out and sorting commute |
| Pruning.PrunedVisit | crates/kubectl-imageless/src/pack.rs:213-218 | skipping version-control directories while packing is packing the tree without them |
| Pruning.PrunedHoldsNoVcs | crates/kubectl-imageless/src/pack.rs:214-218 | no directory named .git, .hg, .jj or .svn is left at any depth |
| Pruning.SkippedTells | crates/kubectl-imageless/src/pack.rs:214-218 | the list of skipped directories is empty exactly when the tree held none |
| Staging.StageTree | crates/imageless/src/resolver.rs:1478-1563 | in any enumeration order, the copy is made exactly when the tree is regular and still fits the budget, costs exactly its nodes and bytes, and is the tree with collapsed modes |
| Staging.VisitCounts | crates/imageless/src/resolver.rs:1494-1530 | the packer visits, below the root, as many entries and bytes as the node counts |
| Staging.VisitClean | crates/kubectl-imageless/src/pack.rs:183-238 | the visit is clean exactly for regular trees with UTF-8 names |
| Staging.StagedIsSame | crates/imageless/src/resolver.rs:1557-1562 | staging changes only mode bits and keeps the any-execute outcome of every file |
| Staging.StagedIsPrivate | crates/imageless/src/resolver.rs:1548-1562 | whatever modes a layer brings, every staged file is at most readable by the group and closed to everybody else |
| LayerTrees.OneChild | crates/kubectl-imageless/src/pack.rs:220-238 | no layer path lies at or below two different children |
| LayerTrees.VisitDetermines | crates/kubectl-imageless/src/pack.rs:175-240 | two trees with the same visit are the same tree up to enumeration order and non-execute mode bits |
| LayerTrees.LayersDetermineTrees | crates/kubectl-imageless/src/pack.rs:122-173 | two packed layers have the same bytes exactly when they hold the same tree |
| LayerTrees.BudgetsAgree | crates/imageless/src/resolver.rs:1478-1563 | the client packs a tree exactly when it is regular, within 4096 entries and 16 MiB as the node counts them, its names are UTF-8 and its paths fit a header; then the node can stage it, and both count the same entries and bytes |
| Unpacking.LayerExtracts | crates/kubectl-imageless/src/pack.rs:122-173 | unpacked entry by entry into an empty file system, every packed layer succeeds: paths are distinct, parents come first, and each entry ends up in its own place |
| Unpacking.FoundIsSame | crates/kubectl-imageless/src/pack.rs:175-243 | whatever tree is found there afterwards is the packed tree |
| Unpacking.DecodedIsStageable | crates/imageless/src/resolver.rs:1478-1563 | any tree a packed layer unpacks to is the packed one, is stageable, and costs the node what the client counted |
| Unpacking.StagedRepacks | crates/imageless/src/resolver.rs:1557-1562 | what the node stages from it packs to the same bytes again |
| Unpacking.PackedUnpacks | crates/kubectl-imageless/src/pack.rs:122-173 | and there is such a tree: the packed one with the layer's modes |
| Decimal.ShowParses | crates/imageless/src/gc.rs:82 | a printed index parses back as `usize`, so distinct roots have distinct names |
| Decimal.ParsesExactly | crates/imageless/src/gc.rs:117-127 | a name counts as an index exactly if it is a printed number below 2^64 after any zeros and at most one plus sign |
| GcRoots.Bundle.GcRootPath | crates/imageless/src/gc.rs:34-82 | creates the directory only when it is absent and needed, and refuses anything else in its place |
| GcRoots.Bundle.PrepareGcRoot | crates/imageless/src/gc.rs:9-32 | removes a stale link and refuses exactly what is not one |
| GcRoots.Bundle.ValidateRegisteredRoot | crates/imageless/src/gc.rs:85-115 | accepts exactly a link to the expected store path |
| GcRoots.Bundle.Register | crates/imageless/src/resolver.rs:1150-1161 | one root: prepare, run Nix, validate, as one value |
| GcRoots.Bundle.RemoveBundleGcRoots | crates/imageless/src/gc.rs:131-153 | the removing loop, in any order of the directory, has exactly the specified effect |
| GcRoots.Bundle.Resolve | crates/imageless/src/resolver.rs:384-405 | registers every root or, on failure, removes what is removable |
| GcRoots.Bundle.Prepare | crates/imageless/src/bundle.rs:266-283 | a failed rewrite also removes what was registered |
| GcRootProofs.SuccessRegistersEveryPath | crates/imageless/src/resolver.rs:886-895 | after success root i is a link to store path i for every i; no later root clobbers an earlier one |
| GcRootProofs.RegisterAllFrame | crates/imageless/src/resolver.rs:886-895 | registration leaves every other entry as it was |
| GcRootProofs.SucceedsExactly | crates/imageless/src/resolver.rs:1152-1162 | registration succeeds exactly when nothing foreign is in the way and every Nix call left the right link and succeeded |
| GcRootProofs.RemovalIsExact | crates/imageless/src/gc.rs:131-153 | from any state, removal deletes exactly the links at reserved or index-parsable names, and the directory exactly when that empties it |
| GcRootProofs.RemovalUndoesRegistration | crates/imageless/src/resolver.rs:403-405 | removal after registration, wherever it stopped, equals removal before it, as long as Nix left only links |
| GcRootProofs.FailureRestoresExactly | crates/imageless/src/bundle.rs:272-283 | in a clean bundle a failed resolve or rewrite restores the clean state exactly unless the failing call left something that is not a link |
| GcRootProofs.FileIsLeftBehind | crates/imageless/src/bundle.rs:272-283 | such a call: one file where a link was asked for, left behind in a bundle that was clean |
| EnvironmentMerge.MergeEnvironment | crates/imageless/src/bundle.rs:464-501 | for any entries the in-place edit computes what editing by the positions map gives; a non-array or a non-string element is an error |
| EnvironmentMerge.RewrittenIsMerged | crates/imageless/src/bundle.rs:464-501 | for names without `=` that is folding the entries over the array as it reads |
| EnvironmentMerge.MergeRefinesOverride | crates/imageless/src/bundle.rs:464-501 | read last-binding-wins, the edited array is a plain map override exactly when no entry's name holds an `=` |
| EnvironmentMerge.MergedValue | crates/imageless/src/bundle.rs:488-499 | each name's value: locked wins, else the workload's, else the release's first |
| EnvironmentMerge.ValidatedValue | crates/imageless/src/release.rs:423-435 | for a validated release: locked and absent names get the release value, overridable ones keep the workload's |
| EnvironmentMerge.MergedSlot | crates/imageless/src/bundle.rs:488-499 | every original slot keeps its index, and its text unless a locked name is read there |
| EnvironmentMerge.GrowthIsNewNames | crates/imageless/src/bundle.rs:493-499 | the array grows by exactly the number of names it did not bind |
| EnvironmentMerge.MergeIsIdempotent | crates/imageless/src/bundle.rs:464-501 | merging twice is merging once |
| EnvironmentMerge.BindingSplits | crates/imageless/src/release.rs:423-435 | `name=value` splits back because names hold no `=` |
| Mounts.ApplyStoreMounts | crates/imageless/src/mounts.rs:86-138 | succeeds exactly for an array of named mounts with no taken or repeated release destination, and then appends one read-only bind for each |
| Mounts.ApplyNodeStoreProjection | crates/imageless/src/mounts.rs:146-242 | succeeds exactly when every mount is normalized and clear of the store, and then appends the projection |
| Mounts.Project | crates/imageless/src/bundle.rs:384-391 | both steps together compute the projected list or refuse |
| Confinement.NormalizedExactly | crates/imageless/src/mounts.rs:244-252 | the destination check accepts exactly the absolute paths that are spelled the one way that leads where they lead, component by component |
| Confinement.ProjectsExactly | crates/imageless/src/mounts.rs:171-198 | the projection succeeds exactly when every destination leads outside the store, said by following it, and no release destination is taken |
| Confinement.ProjectedMountsKeepOut | crates/imageless/src/mounts.rs:171-198 | after it no mount of the workload or of the release has a `..` in its destination, and none leads to the store, into it or above it |
| Confinement.AddedMountsAreGuarded | crates/imageless/src/mounts.rs:105-240 | everything a projection adds is read-only, nosuid and nodev: binds of the release's sources, binds of store paths onto themselves, and at most one tmpfs over the store |
| Confinement.AdmittedNeverClimbs | crates/imageless/src/release.rs:439-453 | a destination or working directory that the manifest admits never leads upwards, wherever it is followed from |
| Confinement.CanonicalExactly | crates/imageless/src/spec.rs:231-243 | an in-image path is canonical exactly when it spells the place where it leads |
| Confinement.InImageStaysBelow | crates/imageless/src/spec.rs:50-65 | what is planned from an in-image source leads to that very place below the rootfs, and never climbs on the way |
| MountProofs.NormalizedIsCanonical | crates/imageless/src/mounts.rs:244-252 | for normalized destinations string equality is path equality |
| MountProofs.DotsAlias | crates/imageless/src/mounts.rs:244-252 | without normalization one path has two spellings |
| MountProofs.OriginalMountsStayClear | crates/imageless/src/mounts.rs:171-198 | on success the workload's mounts are an unchanged prefix, the release's follow, and all are normalized and clear of the store |
| MountProofs.ProjectionKeepsPathsUnique | crates/imageless/src/mounts.rs:105-134 | if the workload's destination strings were distinct, no two final mounts share a path |
| MountProofs.ClosureModeExactly | crates/imageless/src/mounts.rs:208-239 | one tmpfs comes first and only there, and after it exactly one read-only bind for each closure path except the rootfs |
| ClosureQuery.Dedup | crates/imageless/src/mounts.rs:66-67 | on a sorted list, gives the strictly ascending list with the same members |
| ClosureQuery.EnumerateClosure | crates/imageless/src/mounts.rs:40-70 | returns the one ascending list of the printed paths, all of them valid, and refuses everything on one bad line |
| ClosureQuery.ClosureIsASet | crates/imageless/src/mounts.rs:66-67 | order and repetition of the printed lines leave no trace |
| Destinations.AdmittedDestinationProjects | crates/imageless/src/mounts.rs:171-198 | a destination the manifest admits passes the projection exactly when it is spelled canonically and is neither at, above nor below the store |
| Destinations.ReleaseProjectsExactly | crates/imageless/src/bundle.rs:384-391 | so a valid release projects exactly when the workload's own mounts are clear and each release destination is canonical, clear of the store and not taken |
| Destinations.AdmittedButMisspelled | crates/imageless/src/release.rs:439-453 | the manifest admits a doubled slash, which the projection refuses |
| Destinations.AdmittedButTheStore | crates/imageless/src/release.rs:439-453 | it admits the store itself, which the projection refuses |
| Destinations.AdmittedButTheRoot | crates/imageless/src/release.rs:439-453 | and the root above it |
| ConfigWrite.Directory.CreateSiblingTemp | crates/imageless/src/bundle.rs:530-557 | takes the first free nonce of 128, creating nothing otherwise |
| ConfigWrite.FirstFreeExactly | crates/imageless/src/bundle.rs:530-557 | the nonce it settles on is the first whose name is free; every one before it was taken |
| ConfigWrite.TempNamesDiffer | crates/imageless/src/bundle.rs:538-542 | different nonces give different names |
| ConfigWrite.Directory.WriteConfigAtomically | crates/imageless/src/bundle.rs:505-528 | at every instant, running or crashed, the document is the old one or all of the new one in the old mode; an error before the rename changes nothing and removes the temporary; an error from the last sync leaves the new document; success makes it durable |
| ConfigWrite.UnchangedIsIntact | crates/imageless/src/bundle.rs:511-515 | before the rename every reader finds the old document, now and after a crash |
| ConfigWrite.ReplacedIsIntact | crates/imageless/src/bundle.rs:517-522 | after it the new one is visible, and a crash leaves one of the two |
| ConfigWrite.UnsyncedDirectoryForgets | crates/imageless/src/bundle.rs:517-522 | until the directory is synced a crash may bring the old document back |
| Reports.ValidateClosureReport | crates/imageless/src/client.rs:191-248 | accepts exactly reports with valid distinct paths and totals equal to the true sums, and reports an overflow exactly when a true sum does not fit 64 bits |
| Reports.QueryClosure | crates/imageless/src/resolver.rs:974-1075 | builds a report exactly when the description, the status lines, the sums and the frame allow, and then exactly this one |
| Reports.BuiltIsAcceptable | crates/imageless/src/resolver.rs:1055-1061 | every report the daemon builds is acceptable to the client |
| Reports.ReportTells | crates/imageless/src/resolver.rs:1024-1061 | of each path: the sizes the cache described, the unpacked size for an unknown download, and present unless the node store printed it |
| Reports.MissingIsDownloads | crates/imageless/src/resolver.rs:1030-1050 | the missing bytes are the downloads of exactly the absent paths |
| Capture.CaptureOutput | crates/imageless/src/nix.rs:209-243 | whatever the chunking: the first or the last `max` bytes, truncated exactly when there were more, with a bounded buffer; an error exactly when a read failed before the end |

## Left out

- Registry and authentication clients, kubectl driving, the CLI, pod rendering,
  telemetry and the runtime-log relay: input and output plumbing.
- Diagnostic texts: errors are categories, or only the fact of an error, except where
  a branch depends on them.
- Mutex poisoning, panics, and overflow of `Instant` and of the reference count.
- Ownership checks, privilege dropping, resource limits, peer credentials and killing
  process groups: foreign calls without state of interest here.
- Annotation selection in `plan` and zero-configuration discovery: only the planned
  installable is modelled, not which annotation wins.
- The `args` and `cwd` parts of the process metadata: overwriting two fields.
- Shebang scripts, catalog files and flake reference hints: easy to state and to check.
- Sections.ResolverInner.Join: one call at a time; that sections of different callers exclude each other is the locks' doing and is the step semantics of the machine.
- Materialization.MaterializeInto: starts after the check that a development worker is configured, and takes staging as part of what may fail before Nix runs.
- Bundles.ReturnedMeansRooted: a bundle belongs to one request at a time, and nobody else writes its reserved names.
- Packer.PackSource: does not model read errors or files that change while being packed; the skipped directories are reported by their path in the layer, not on disk.
- Packer.PackGenerated: modes beyond seven octal digits, on which the source panics, are excluded by its precondition.
- Staging.StageTree: does not model the deadline, ownership, time stamps or file system errors; it decides what the tree alone decides.
- GcRoots.Bundle.RemoveBundleGcRoots: file system errors during removal are not modelled, so neither is the partial removal they would leave.
- GcRoots.Bundle.GcRootPath: does not model failing to create or secure the directory, nor another process changing it meanwhile.
- ConfigWrite.Directory.WriteConfigAtomically: the replaced document is taken to be durable already, and no other process writes the directory during the call.
- Confinement.ProjectedMountsKeepOut: follows the names of a path; symbolic links inside the container's root file system are the runtime's matter.
- Mounts.Project: other JSON members of a mount are opaque text, and `NIX_STORE_PATH` is a parameter of which only the components matter (`Mounts.NixStoreIsStore`).
- Reports.QueryClosure: starts from the parsed description, an ordered map; whether a response fits a protocol frame is a parameter.
- Capture.CaptureOutput: the sizes of the window and of a chunk are parameters; memory held by the allocator beyond the buffer's length is not counted.
- Releases.ValidateManifest: reports the kind of error, not which of several defects was found first.
