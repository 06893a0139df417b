# Verified model of the OAM application and health-scope controllers

A Dafny model of the controllers in this repository that turn an ApplicationConfiguration into workloads and
traits, number component revisions, and sum up the health of a scope. `dafny verify dfyconfig.toml` checks it.

The cluster is an explicit store of objects and scopes with versions (`Cluster`). Any request may work, be turned
down, or take effect although an error comes back; the n-th request's fate is an arbitrary function of n, so that
every theorem about a reconcile covers a failure at every point of it. Code that updates state in the repository is
a method over a class here (`Client`, `Workloads`, `Components`, `Reconciler`, `ComponentHandler`, `Dag`,
`StatusHolder`, `Metadata`, `HealthRecord`), proved to compute a specification function or relation; the properties
are lemmas about those, over single calls and over whole runs.

| module | what it is about |
|---|---|
| `Kube`, `Wrappers`, `Sets`, `Sorting` | names of objects, option types, sizes of sets, sorted orders |
| `Names` | printing revision names and the two parsers |
| `FieldPaths`, `Parameters` | a tree of fields; resolving parameters and writing them into a workload |
| `Headers`, `Trees`, `Gating` | what an object is known and stamped by, objects as trees, and dependency handling as part of rendering |
| `Dependencies`, `DependencyRender`, `DependencyRounds`, `DependencyReconcile`, `Outputs` | data dependencies: one rendering, the same in place, whole runs of rounds, lives of reconciles as such runs, and the sources as the spec declares them |
| `Revisions`, `RevisionRuns` | the component handler, its cleanup, and runs of events |
| `Health`, `HealthFanIn`, `PeerMerge` | goroutines, channel and collector as a step system; merging peers |
| `AppStatus`, `Labels` | recorded status and its merge; labels and stamps |
| `Cluster`, `Apply`, `Applicator`, `Ownership` | the store, what applying does to it, the applicator that does it, and objects of others |
| `ScopeMembership`, `ScopeRetries` | references of scopes: exactness, other applications, conflicts, retries |
| `ApplyOnce`, `ApplyOnceRuns` | what becomes of each object; apply-once-only |
| `Rendering`, `RenderedFacts`, `Naming`, `Contents` | what is rendered: names, labels, scopes, and what objects say, up to what Apply makes of them |
| `Reconcile`, `Outcomes`, `GarbageCollection`, `Lifecycle` | one reconcile, what it comes to, what it collects, and whole lives of an application |
| `Stability` | names that stay the same from one reconcile to the next |
| `Convergence` | rounds of an unchanged spec, up to everything being applied |
| `LeftBehind`, `Blocked` | small lives, step by step: references left behind, and a deletion that never ends |

## Where the code does less than one would expect

Each of these is a lemma with the exact condition or a witness.

- Revision handling needs a history limit of at least 1 (`RevisionRuns.LimitMustBePositive`), and a status update lost
  after a create blocks all later revisions (`RevisionRuns.GetsStuckExactlyWhen`, `RevisionRuns.RunsGetStuck`, `RevisionRuns.StuckForEver`).
- A scope that does not ask for workload references is accepted when it is joined and refused when it is left, so it
  blocks deletion (`ScopeMembership.FinalizeSucceedsExactlyWhen`, `Lifecycle.DeletionExactlyWhen`), for ever if nobody
  interferes (`Blocked.BlockedForEver`, and step by step `Blocked.DeletionCanBeBlocked`).
- Scope references that never reached the status survive the application (`Lifecycle.UnrecordedReferencesStay`,
  and step by step `LeftBehind.ReferencesCanBeLeftBehind`); exactly
  then is deletion not clean (`Lifecycle.DeletionLeavesNothingExactlyWhen`).
- A reference recorded with a UID makes the collector delete an object it renders
  (`GarbageCollection.RenderedIsCollectedExactlyWhen`); the controller itself never records one.
- Attaching a revision-enabled trait renames a workload that is not there yet
  (`Stability.AttachingKeepsNameExactlyWhen`).
- Of components without a revision name the last one's status text overwrites the others'
  (`AppStatus.SharedRevisionNamesOverwrite`); exactly which text survives is `AppStatus.TextSurvivesExactlyWhen`.
- A data input may be declared to fill an object's metadata, and then does: it can rename the object (`Trees.FillRenames`),
  which then goes by what its source says (`Gating.FilledNameFollowsTheSource`), or replace the controller's labels
  (`Trees.FillReplacesLabels`), which ends apply-once-only for it (`ApplyOnceRuns.FilledLabelsEndApplyOnce`). Exactly
  which target paths are harmless to which part is `Headers.KeptExactlyWhen`.
- An output without field path and condition makes nothing wait, so that objects that take values from one another can
  start together (`DependencyRounds.UnguardedExchangeFinishes`).
- The comment on `extractRevision` promises 0 for every name that is no revision name; the code does not
  (`Names.UnqualifiedNameMayParse`, `Names.ExtractRevisionIsZero`).
- Overlapping parameter paths make rendering depend on the order of a map (`Parameters.OverlapIsNotConfluent`), and peers
  of equal revision make the merged text depend on the sort (`PeerMerge.TiesAreVisible`).

## Model

| member | source | states |
|---|---|---|
| DependencyRounds.ChainsBoundTheRounds | pkg/controller/v1alpha2/applicationconfiguration/render.go:99-124 | if no chain of objects that wait for one another is longer than n, nobody deletes the objects, and the sources that exist are filled before each round that completes, n completed rounds apply every workload and trait, whatever the failed rounds in between do (that reconciles are such rounds: DependencyReconcile.ReconcileIsARound) |
| DependencyRounds.AcyclicChainsAreShort | pkg/controller/v1alpha2/applicationconfiguration/render.go:550-605 | in an acyclic graph a chain visits no object twice |
| DependencyRounds.AcyclicApplicationsFinish | pkg/controller/v1alpha2/applicationconfiguration/render.go:99-124 | an acyclic application is complete after as many completed rounds as it has objects |
| DependencyRounds.CyclesNeverStart | pkg/controller/v1alpha2/applicationconfiguration/render.go:550-605 | in every run in which nobody else creates them: objects on a cycle of objects that wait for one another, or downstream of one, absent at the start, are absent after every round, completed or failed, whatever their own inputs fill, provided no object outside shares a key with them or is declared to be renamed |
| DependencyRounds.FinishesExactlyWhenAcyclic | pkg/controller/v1alpha2/applicationconfiguration/render.go:438-479 | for every application whose objects have keys of their own and inputs that fill no type or name: started from nothing and attended to, it is complete after enough rounds if and only if no objects wait for one another in a circle |
| DependencyRounds.UnguardedIsAlwaysReady | pkg/controller/v1alpha2/applicationconfiguration/render.go:690-738 | an output is ready whatever the cluster holds exactly when it has neither field path nor condition; these are the outputs nothing waits for |
| DependencyRounds.UnguardedExchangeFinishes | pkg/controller/v1alpha2/applicationconfiguration/render.go:696-699 | two objects that take values from one another, from such outputs, are both applied in a single round |
| DependencyRounds.StuckForOneRound | pkg/controller/v1alpha2/applicationconfiguration/apply.go:108-144 | one round, whatever fails in it and whatever their own inputs fill, applies nothing of a set of absent objects that feed one another |
| DependencyRounds.AbsentSource | pkg/controller/v1alpha2/applicationconfiguration/render.go:690-738 | what keeps an object out after a completed round with attended sources is an object it waits for and that was itself absent |
| Dependencies.GatingIsExact | pkg/controller/v1alpha2/applicationconfiguration/render.go:438-479 | when Render returns no error every object is rendered in order, is held back exactly when one of its inputs is unready for the object as filled so far, has the values of all its inputs otherwise, and adds one unsatisfied entry, under the name it has by then, exactly when held |
| Dependencies.HeldExactlyWhenUnready | pkg/controller/v1alpha2/applicationconfiguration/render.go:550-586 | handling the inputs of one object stops with an unsatisfied dependency exactly when some input is unready |
| Dependencies.BrokenExactlyWhen | pkg/controller/v1alpha2/applicationconfiguration/render.go:550-605 | it fails exactly when some input cannot be handled and none before it holds the object back |
| Dependencies.RenderSucceedsExactlyWhen | pkg/controller/v1alpha2/applicationconfiguration/render.go:112-123 | Render returns no error exactly when no object has such an input |
| Dependencies.ConditionsAreConjunction | pkg/controller/v1alpha2/applicationconfiguration/render.go:780-807 | the loop over conditions succeeds exactly when every condition holds |
| Dependencies.StringSourceReadiness | pkg/controller/v1alpha2/applicationconfiguration/render.go:690-738 | a string source is ready exactly when its conditions all hold or, without conditions, when it is not empty |
| Dependencies.ReadyExactlyWhen | pkg/controller/v1alpha2/applicationconfiguration/render.go:690-738 | a source of which something is asked hands on a value exactly when its object is there, its field is there with that value, and the value passes; a field that is not there yet is not ready, and only an object that cannot be read, or something that is no object on the way, is an error |
| Dependencies.OwnReadyExactlyWhen | pkg/controller/v1alpha2/applicationconfiguration/render.go:635-660 | the conditions an input puts on its own object hold while that does not exist, and otherwise exactly when each holds of its fields |
| Dependencies.HeldExactlyWhenNotArrived | pkg/controller/v1alpha2/applicationconfiguration/render.go:550-605 | an object that keeps its name is handed over exactly when every source its inputs name is declared, exists, has the field and passes, and its own conditions hold |
| Dependencies.HeldUntilTheFieldIsThere | pkg/controller/v1alpha2/applicationconfiguration/render.go:711-718 | an object that takes a value from an object that is there without the field is held back |
| Dependencies.InputIsFilledIn | pkg/controller/v1alpha2/applicationconfiguration/render.go:550-586 | when an object is not held back, each target path that stands apart from the others holds the value of its source, appended to what was there if both are lists |
| Dependencies.HeldIsReported | pkg/controller/v1alpha2/applicationconfiguration/render.go:481-501 | every object that is held back is reported with the first of its inputs that is unready, the object and field it waits for and the paths to fill |
| Dependencies.NamelessExactlyWhen | pkg/controller/v1alpha2/applicationconfiguration/render.go:550-586 | an input takes no value exactly when its output name is white space |
| Outputs.SourcesAreDeclared | pkg/controller/v1alpha2/applicationconfiguration/render.go:425-436 | the sources of a round are the outputs that the spec declares for its workloads and traits, by name |
| Outputs.HandedOverExactlyWhen | pkg/controller/v1alpha2/applicationconfiguration/render.go:438-479 | a round hands over exactly the workloads and traits whose inputs have arrived from the cluster as it finds it |
| DependencyReconcile.NothingUnsatisfiedAppliesAll | pkg/controller/v1alpha2/applicationconfiguration/apply.go:108-144 | no unsatisfied dependency means every rendered object is handed to the applicator, and exists after an Apply that succeeds |
| Dependencies.LastDeclarationCounts | pkg/controller/v1alpha2/applicationconfiguration/dag.go:45-51 | an output name stands for the last declaration of it in the application, in the order of rendering, and only declared names stand for anything |
| DependencyRender.AddDataOutputs | pkg/controller/v1alpha2/applicationconfiguration/render.go:425-436 | registers every declared output in order |
| DependencyRender.FillValue | pkg/controller/v1alpha2/applicationconfiguration/render.go:662-688 | writes the value into every path, appending where both are lists, and fails as the reference definition does |
| DependencyRender.HandleDataInput | pkg/controller/v1alpha2/applicationconfiguration/render.go:550-586 | the loop over inputs fills the object, holds it back or fails, as the reference definition does |
| DependencyRender.GateObject | pkg/controller/v1alpha2/applicationconfiguration/render.go:451-460 | one object ends up held back or filled, with the dependencies it reports |
| DependencyRender.HandleDependency | pkg/controller/v1alpha2/applicationconfiguration/render.go:438-479 | all objects, updated in place, match the gating definition and the unsatisfied entries come out in its order |
| DependencyRender.RenderComponent | pkg/controller/v1alpha2/applicationconfiguration/render.go:216-216 | the outputs of a component's traits are registered before those of its workload, and registering touches no object |
| DependencyRender.Render | pkg/controller/v1alpha2/applicationconfiguration/render.go:99-124 | rendering in two passes over components computes the reference rendering |
| DependencyReconcile.ReconcileIsARound | pkg/controller/v1alpha2/applicationconfiguration/applicationconfiguration.go:291-345 | every reconcile is a dependency round over the graph it draws, whatever fails in it: it creates only what the gate hands over, and if no input fills a type or a name it loses nothing and completes exactly when neither Render nor Apply returns an error |
| DependencyReconcile.ApplyGrows | pkg/controller/v1alpha2/applicationconfiguration/apply.go:108-158 | however it ends, an Apply deletes no object, and creates and changes only what is not held back |
| DependencyReconcile.ApplyCreates | pkg/controller/v1alpha2/applicationconfiguration/apply.go:108-144 | after an Apply that succeeds everything that is not held back exists |
| DependencyReconcile.GateHands | pkg/controller/v1alpha2/applicationconfiguration/apply.go:108-144 | what the gate does not hold back is exactly what Apply is handed |
| DependencyReconcile.AcyclicLifeFinishes | pkg/controller/v1alpha2/applicationconfiguration/applicationconfiguration.go:230-346 | over a life of reconciles, with failures anywhere and others in between who delete none of the objects, every workload and trait exists once as many rounds have completed as the graph has objects |
| DependencyReconcile.CyclicLifeNeverStarts | pkg/controller/v1alpha2/applicationconfiguration/applicationconfiguration.go:230-346 | over any life in which others create none of them, objects on a cycle or downstream of one are never created |
| DependencyReconcile.NothingLackingCompletes | pkg/controller/v1alpha2/applicationconfiguration/apply.go:102-158 | a round in which nothing is misconfigured and no scope reference is lacking completes |
| DependencyReconcile.FewRoundsFail | pkg/controller/v1alpha2/applicationconfiguration/apply.go:102-158 | of rounds in which nothing is misconfigured at most as many do not complete as scope references were lacking at first |
| Convergence.EverythingIsApplied | pkg/controller/v1alpha2/applicationconfiguration/applicationconfiguration.go:230-346 | while a well-formed acyclic spec stays the same, its sources are filled and nothing is misconfigured, every workload and trait that it draws exists after as many reconciles as there are objects and lacking scope references |
| DependencyReconcile.GraphIsApplied | pkg/controller/v1alpha2/applicationconfiguration/applicationconfiguration.go:230-346 | the same over a given graph, for a stretch of a life in which every round draws it |
| Convergence.UnchangedSpecRendersTheSame | pkg/controller/v1alpha2/applicationconfiguration/render.go:99-124 | while the spec stays the same, every round that renders anything, however the rounds before it ended, renders the names drawn at the beginning of the stretch |
| Convergence.UnchangedSpecDrawsOneGraph | pkg/controller/v1alpha2/applicationconfiguration/render.go:99-124 | so all these rounds draw one dependency graph |
| Convergence.RoundStaysOnPlan | pkg/controller/v1alpha2/applicationconfiguration/applicationconfiguration.go:291-345 | one round, wherever it fails, leaves a world in which the same names will be drawn again: nothing recorded anew, or exactly those names |
| Convergence.ApplyKeepsLabel | pkg/controller/v1alpha2/applicationconfiguration/apply.go:108-158 | a rendered workload that carries the label of its revision keeps it through an Apply, wherever that stops |
| LeftBehind.PlansExist | pkg/controller/v1alpha2/applicationconfiguration/applicationconfiguration.go:291-345 | a concrete application meets everything that convergence asks of a spec |
| Parameters.Resolve | pkg/controller/v1alpha2/applicationconfiguration/render.go:389-423 | succeeds exactly when every supplied name is declared and every required one supplied, and yields one parameter per supplied name, with the last value |
| Parameters.RenderWorkload | pkg/controller/v1alpha2/applicationconfiguration/render.go:327-351 | the nested loops perform every write in order, or fail when one of them fails |
| Parameters.RenderedHoldsTheValues | pkg/controller/v1alpha2/applicationconfiguration/render.go:333-346 | at each declared path of a supplied name the rendered workload holds the last value supplied, a text for a string and a number for an integer |
| Parameters.LastValueIsLast | pkg/controller/v1alpha2/applicationconfiguration/render.go:394-404 | of several values supplied under one name the last one counts |
| Parameters.LastPathsAreLast | pkg/controller/v1alpha2/applicationconfiguration/render.go:405-418 | and of several declarations of one name the last one |
| Parameters.RenderedKeepsTheRest | pkg/controller/v1alpha2/applicationconfiguration/render.go:333-346 | every path that stands apart from the declared ones reads as in the template |
| Parameters.RenderingSucceedsExactlyWhen | pkg/controller/v1alpha2/applicationconfiguration/render.go:327-351 | rendering fails exactly when the template is no object or has something that is no object in the way of a declared path |
| Parameters.ResolutionsAgree | pkg/controller/v1alpha2/applicationconfiguration/render.go:389-423 | any two results of resolve, for whatever map order, hold the same parameters |
| Parameters.RenderingIsConfluent | pkg/controller/v1alpha2/applicationconfiguration/render.go:327-351 | if the paths of different parameters are not prefixes of one another, every order of the map renders the same tree or fails alike |
| Parameters.OverlapIsNotConfluent | pkg/controller/v1alpha2/applicationconfiguration/render.go:415-422 | with overlapping paths two orders of the map render different workloads |
| FieldPaths.CommuteExactlyWhenApart | pkg/controller/v1alpha2/applicationconfiguration/render.go:333-346 | writes at two paths commute, for every tree and all values, exactly when one of them is empty and sets nothing, or neither is a prefix of the other |
| FieldPaths.GetAfterSet | pkg/controller/v1alpha2/applicationconfiguration/render.go:662-688 | a value that was set is found at its path |
| FieldPaths.SetLeavesApart | pkg/controller/v1alpha2/applicationconfiguration/render.go:662-688 | a write leaves every path that stands apart from its own as it was |
| FieldPaths.LeavesExactlyWhenApart | pkg/controller/v1alpha2/applicationconfiguration/render.go:662-688 | writes at a path leave another one alone, for every object and value, exactly when the two stand apart |
| FieldPaths.FillLeavesExactlyWhenApart | pkg/controller/v1alpha2/applicationconfiguration/render.go:662-688 | filling a path leaves another one alone, for every object and value, exactly when neither is a prefix of the other or one is empty |
| FieldPaths.FillSucceedsExactlyWhen | pkg/controller/v1alpha2/applicationconfiguration/render.go:662-688 | filling a path fails exactly when something that is no object is in the way, or a list is to go over something that is no list |
| Headers.HeaderIsKeptExactlyWhen | pkg/controller/v1alpha2/applicationconfiguration/render.go:662-688 | in particular an object's type and name, its labels, its stamp and its owners, each on its own |
| Headers.KeptExactlyWhen | pkg/controller/v1alpha2/applicationconfiguration/render.go:662-688 | a declared target path keeps a given set of paths, for every object and value, exactly when it overlaps none of them |
| Gating.FilledNameFollowsTheSource | pkg/controller/v1alpha2/applicationconfiguration/render.go:438-479 | an object with an input that fills metadata.name goes by whatever the source says in that round |
| Gating.GateKeeps | pkg/controller/v1alpha2/applicationconfiguration/render.go:438-479 | dependency handling never touches scopes or the names of components and revisions; of an object its key, its labels, its stamp and its owner each stay unless an input is declared to fill just that |
| Gating.HandleDependencies | pkg/controller/v1alpha2/applicationconfiguration/render.go:112-123 | the pass over everything drawn, in place, equals the reference gate |
| Trees.FillReplacesLabels | pkg/controller/v1alpha2/applicationconfiguration/render.go:662-688 | an input that fills metadata.labels replaces every label, the controller's included |
| Trees.FillRenames | pkg/controller/v1alpha2/applicationconfiguration/render.go:662-688 | an input that fills metadata.name renames the object |
| FieldPaths.SetsCommute | pkg/controller/v1alpha2/applicationconfiguration/render.go:333-346 | writes at paths that are apart can be swapped, failures included |
| FieldPaths.OverlapIsOrderDependent | pkg/controller/v1alpha2/applicationconfiguration/render.go:333-346 | writes at overlapping paths depend on their order |
| Names.ComponentNameRoundTrip | pkg/controller/v1alpha2/applicationconfiguration/component.go:268-278 | extracting the component name inverts constructing a revision name exactly when the number is not negative |
| Names.RevisionNumberRoundTrip | pkg/controller/v1alpha2/core/scopes/healthscope/healthscope.go:384-389 | the health scope recovers every 64-bit revision number from a constructed name |
| Names.RevisionNumberSaturates | pkg/controller/v1alpha2/core/scopes/healthscope/healthscope.go:384-389 | a number that does not fit in 64 bits comes back as the nearest one that does |
| Names.RevisionNamesAreInjective | pkg/controller/v1alpha2/applicationconfiguration/component.go:268-272 | no two pairs of component and number share a name, whatever the numbers |
| Names.RevisionNamedWorkloadIsSpared | pkg/controller/v1alpha2/applicationconfiguration/applicationconfiguration.go:531-535 | a workload named after a revision of its component is exempt from garbage collection |
| Names.SparedExactlyWhen | pkg/controller/v1alpha2/applicationconfiguration/applicationconfiguration.go:531-535 | what is exempt is exactly the names that begin with the component name and a dash |
| Names.UnqualifiedNameMayParse | pkg/controller/v1alpha2/core/scopes/healthscope/healthscope.go:384-389 | a name that is no revision name can still yield a number other than 0, unlike the comment says |
| Names.ExtractRevisionIsZero | pkg/controller/v1alpha2/core/scopes/healthscope/healthscope.go:384-389 | exactly which names yield 0 |
| Revisions.ComponentHandler.IsRevisionDiff | pkg/controller/v1alpha2/applicationconfiguration/component.go:102-128 | the decision and the current number, with its fallbacks when the stored revision cannot be read or unpacked |
| Revisions.ComponentHandler.SortedControllerRevision | pkg/controller/v1alpha2/applicationconfiguration/component.go:197-221 | how many revisions to delete, and the in-place sort by number when there are any |
| Revisions.ComponentHandler.DeleteInOrder | pkg/controller/v1alpha2/applicationconfiguration/component.go:250-264 | walks the sorted list, skips pinned names, and stops at the count, at the end or at the first failed deletion |
| Revisions.PinnedExactlyWhen | pkg/controller/v1alpha2/applicationconfiguration/component.go:197-221 | a revision is pinned exactly when some component of some application names it |
| Revisions.ComponentHandler.CleanupControllerRevision | pkg/controller/v1alpha2/applicationconfiguration/component.go:224-266 | one cleanup deletes unpinned revisions only, oldest first, and as many as it should or as it manages |
| Revisions.ComponentHandler.CreateControllerRevision | pkg/controller/v1alpha2/applicationconfiguration/component.go:135-194 | one handling, with a failure possible at the read, the create, the status update and in the cleanup |
| RevisionRuns.RunKeepsInv | pkg/controller/v1alpha2/applicationconfiguration/component.go:135-194 | in every reachable state the highest number ever stored is the latest one or the latest plus one |
| RevisionRuns.LatestOnlyGrows | pkg/controller/v1alpha2/applicationconfiguration/component.go:164-186 | the latest revision never goes back |
| RevisionRuns.NamesAreNeverRebound | pkg/controller/v1alpha2/applicationconfiguration/component.go:146-175 | a revision name once bound to a spec is never bound to another, not even after its deletion |
| RevisionRuns.HandlingStoresTheNext | pkg/controller/v1alpha2/applicationconfiguration/component.go:139-186 | a handling that changes anything stores exactly one revision, under the number after the latest |
| RevisionRuns.TrueMeansStored | pkg/controller/v1alpha2/applicationconfiguration/component.go:135-194 | with a limit of at least 1, a handling that returns true leaves the component's own spec stored under its latest revision |
| RevisionRuns.LimitMustBePositive | pkg/controller/v1alpha2/applicationconfiguration/component.go:188-192 | that holds for all handlings exactly when the limit is at least 1 |
| RevisionRuns.HistoryIsBounded | pkg/controller/v1alpha2/applicationconfiguration/component.go:188-192 | after every creation whose cleanup does not fail, at most limit plus the number of pinned names revisions remain, whether the gate ran the cleanup or skipped it |
| RevisionRuns.CleanupSparesThePinnedAndTheNewest | pkg/controller/v1alpha2/applicationconfiguration/component.go:224-266 | no pinned revision and never the newest one is deleted, and every deleted one is older than every surviving unpinned one, even when the cleanup fails half way |
| RevisionRuns.CleanupBounds | pkg/controller/v1alpha2/applicationconfiguration/component.go:197-266 | a cleanup that works to its end leaves at most limit revisions beside the pinned names |
| RevisionRuns.NewestSurvives | pkg/controller/v1alpha2/applicationconfiguration/component.go:250-264 | the newest revision survives every cleanup if the limit is at least 1 |
| RevisionRuns.GetsStuckExactlyWhen | pkg/controller/v1alpha2/applicationconfiguration/component.go:174-186 | a handling leaves a revision stored above the latest one exactly when it was called for and the create took effect behind an error or the status update was turned down |
| RevisionRuns.RunsGetStuck | pkg/controller/v1alpha2/applicationconfiguration/component.go:176-186 | every new component has a run of one handling that ends so |
| RevisionRuns.NextNameIsTakenExactlyWhenStuck | pkg/controller/v1alpha2/applicationconfiguration/component.go:174-180 | the next name is taken exactly when a revision is stored above the latest one |
| RevisionRuns.ProgressExactlyWhenNotStuck | pkg/controller/v1alpha2/applicationconfiguration/component.go:174-186 | with no failing request a changed component gets its revision exactly when none is stored above the latest one |
| RevisionRuns.UpToDateIsLeftAlone | pkg/controller/v1alpha2/applicationconfiguration/component.go:102-128 | a component whose latest revision can be read and unpacked and holds its spec is left alone, whatever fails |
| RevisionRuns.StoresExactlyWhenNotUpToDate | pkg/controller/v1alpha2/applicationconfiguration/component.go:102-186 | with no failing request and not stuck, any other component gets exactly one revision: a changed one, one without a latest revision, and one whose latest revision cannot be read or unpacked |
| RevisionRuns.EditGetsOneRevision | pkg/controller/v1alpha2/applicationconfiguration/component.go:135-194 | an edit gets exactly one new revision, which holds the new spec, and none at the next handling |
| RevisionRuns.StuckForEver | pkg/controller/v1alpha2/applicationconfiguration/component.go:174-186 | once a revision is stored above the latest one, no later handling of the run stores anything or returns true |
| HealthFanIn.CheckWorkload | pkg/controller/v1alpha2/core/scopes/healthscope/healthscope_controller.go:202-222 | the condition sent is that of the trait checker, else of the first built-in checker that answers, else of the unknown checker |
| HealthFanIn.StepHolds | pkg/controller/v1alpha2/core/scopes/healthscope/healthscope_controller.go:195-243 | every step of every goroutine keeps the bookkeeping of channel, wait group and counters |
| HealthFanIn.NoSendBlocksOrPanics | pkg/controller/v1alpha2/core/scopes/healthscope/healthscope_controller.go:195-232 | in every interleaving a goroutine that still has to send finds room in the channel and finds it open |
| HealthFanIn.NoDeadlock | pkg/controller/v1alpha2/core/scopes/healthscope/healthscope_controller.go:195-243 | a reachable state in which nothing can happen is exactly one in which the collector has ended |
| HealthFanIn.MaximalRunsCollectEverything | pkg/controller/v1alpha2/core/scopes/healthscope/healthscope_controller.go:195-243 | every interleaving ends after exactly 3n+2 steps, with exactly the conditions found collected |
| HealthFanIn.GetScopeHealthStatus | pkg/controller/v1alpha2/core/scopes/healthscope/healthscope_controller.go:178-257 | under any scheduler, each goroutine running the checkers before it sends: the three counters are right and sum to the total, the scope is healthy exactly when every condition is, and the list is a permutation of the workloads' conditions |
| HealthFanIn.ReportsDoNotDependOnTheSchedule | pkg/controller/v1alpha2/core/scopes/healthscope/healthscope_controller.go:233-257 | two schedules report the same condition, and lists that differ in order only |
| HealthFanIn.Schedule | pkg/controller/v1alpha2/core/scopes/healthscope/healthscope_controller.go:195-232 | as long as the collector has not ended some step can be taken |
| PeerMerge.MergePeerWorkloadsConditions | pkg/controller/v1alpha2/core/scopes/healthscope/healthscope.go:392-433 | the base record becomes the merge with some descending sort of the peers and itself; the peers' slice is not written |
| PeerMerge.RaiseUnhealthy | pkg/controller/v1alpha2/core/scopes/healthscope/healthscope.go:403-409 | the loop over the sorted peers makes the base unhealthy exactly when one of them is |
| PeerMerge.WriteTexts | pkg/controller/v1alpha2/core/scopes/healthscope/healthscope.go:410-432 | which text is written, from which entries, and that the other one stays |
| PeerMerge.MergedStatusIsExact | pkg/controller/v1alpha2/core/scopes/healthscope/healthscope.go:403-409 | the merged status is unhealthy exactly when the base or a peer is, and the base's own otherwise |
| PeerMerge.MergedTextIsExact | pkg/controller/v1alpha2/core/scopes/healthscope/healthscope.go:410-432 | the text lists every entry with its status, newest first, if the status is unknown; otherwise with their diagnosis the two newest and those of the others that have replicas; the other text stays |
| PeerMerge.MergeIgnoresPeerOrder | pkg/controller/v1alpha2/core/scopes/healthscope/healthscope.go:377-433 | the merged condition is the same for every order of the peers and every way to break ties, as long as entries of one revision have one name and one text of the kind that is merged |
| PeerMerge.TiesAreVisible | pkg/controller/v1alpha2/core/scopes/healthscope/healthscope.go:378-381 | two sorts of one list that break a tie between different names differently give different texts |
| Sorting.SortIsUnique | pkg/controller/v1alpha2/core/scopes/healthscope/healthscope.go:377-382 | entries with distinct ranks have one sorted order |
| AppStatus.StatusHolder.PatchExtraStatusField | pkg/controller/v1alpha2/applicationconfiguration/applicationconfiguration.go:391-414 | the nested loops in place compute the entry-wise merge |
| AppStatus.PatchKeepsReferences | pkg/controller/v1alpha2/applicationconfiguration/applicationconfiguration.go:391-414 | the merge changes texts only: no reference, name or message |
| AppStatus.ExtraStatusSurvives | pkg/controller/v1alpha2/applicationconfiguration/applicationconfiguration.go:391-414 | with distinct revision names and trait references, every non-empty text written by others is carried over to the workload of that revision and the trait of that reference, and nothing else changes |
| AppStatus.NewRevisionsStartBlank | pkg/controller/v1alpha2/applicationconfiguration/applicationconfiguration.go:394-396 | a workload of a revision not yet recorded is left as rendered |
| AppStatus.WorkloadGetsWritten | pkg/controller/v1alpha2/applicationconfiguration/applicationconfiguration.go:391-414 | with any old status, each text of an entry becomes the last non-empty one written under its revision name, if there is one |
| AppStatus.SecondPatchChangesNothing | pkg/controller/v1alpha2/applicationconfiguration/applicationconfiguration.go:391-414 | merging twice is merging once, for every old status |
| AppStatus.TextSurvivesExactlyWhen | pkg/controller/v1alpha2/applicationconfiguration/applicationconfiguration.go:394-399 | a text reaches the workload of its revision name exactly when the last entry of that name that has a text has the same one |
| AppStatus.SharedRevisionNamesOverwrite | pkg/controller/v1alpha2/applicationconfiguration/applicationconfiguration.go:394-399 | of entries that share a revision name with different texts, the last one's text overwrites the others' |
| AppStatus.TwoUnrevisionedComponents | pkg/controller/v1alpha2/applicationconfiguration/applicationconfiguration.go:394-399 | an instance: two components without a revision name |
| Labels.MergeMapOverrideWithDst | pkg/oam/util/helper.go:443-457 | the two loops give every key of either map, dst winning |
| Labels.Metadata.Stamp | pkg/controller/v1alpha2/applicationconfiguration/render.go:143-157 | the controller's own keys hold the controller's values whatever the component and the application bring; every other key holds the component's value before the application's |
| Labels.Metadata.AddLabels | pkg/oam/util/helper.go:433-435 | new values override |
| Labels.Metadata.PassLabelAndAnnotation | pkg/oam/util/helper.go:288-293 | the parent's values never override |
| Labels.StampsAreTheControllers | pkg/controller/v1alpha2/applicationconfiguration/render.go:143-177 | the compared values of a rendered object are the application's generation and name and the component and revision, and it is marked as workload or trait |
| Applicator.Workloads.ApplyManifest | pkg/controller/v1alpha2/applicationconfiguration/apply.go:114-121 | one object: created, refused, skipped, patched or replaced, as the reference definition says |
| Applicator.Workloads.ApplyScopeTo | pkg/controller/v1alpha2/applicationconfiguration/apply.go:342-382 | one reference added to a render-time copy and written back under its version |
| Applicator.Workloads.ApplyScopeRemoval | pkg/controller/v1alpha2/applicationconfiguration/apply.go:384-441 | one reference removed by swapping with the last; a scope that is gone is no error, one that asks for no references is |
| Applicator.Workloads.ApplyOne | pkg/controller/v1alpha2/applicationconfiguration/apply.go:108-155 | workload, then traits, then scopes, stopping at the first error |
| Applicator.Workloads.Apply | pkg/controller/v1alpha2/applicationconfiguration/apply.go:102-158 | the nested loops stop at the first error and compute the reference definition; no workloads is an error |
| Applicator.Workloads.DereferenceScope | pkg/controller/v1alpha2/applicationconfiguration/apply.go:287-306 | the last rendered workload with the recorded reference decides which scopes are left |
| Applicator.Workloads.DereferenceAllScopes | pkg/controller/v1alpha2/applicationconfiguration/apply.go:309-319 | every recorded workload is removed from every recorded scope, in order |
| Applicator.Workloads.Finalize | pkg/controller/v1alpha2/applicationconfiguration/apply.go:273-285 | the finalizer is kept on any error and dropped otherwise |
| Ownership.RefusedExactlyWhen | pkg/controller/v1alpha2/applicationconfiguration/apply.go:114-121 | on a network that works an object is refused exactly when it has another controlling owner; without an owner it is taken over |
| Ownership.ForeignObjectsStay | pkg/controller/v1alpha2/applicationconfiguration/apply.go:108-144 | however the requests fare, an Apply leaves an object controlled by somebody else exactly as it was, and ends in an error if it is handed anything under its key |
| Ownership.ReconcileGivesUp | pkg/controller/v1alpha2/applicationconfiguration/applicationconfiguration.go:306-317 | a reconcile that comes across such an object does not complete and records nothing new |
| Ownership.ReconcileLeavesForeign | pkg/controller/v1alpha2/applicationconfiguration/applicationconfiguration.go:230-346 | no reconcile changes such an object unless the application has recorded it |
| Applicator.FindDereferencedScopes | pkg/controller/v1alpha2/applicationconfiguration/apply.go:321-340 | exactly the recorded scopes that are not rendered, in order |
| Applicator.FindReference | pkg/controller/v1alpha2/applicationconfiguration/apply.go:412-421 | the first reference to the workload, or -1 exactly when there is none |
| ScopeMembership.SwapWithLastRemovesOne | pkg/controller/v1alpha2/applicationconfiguration/apply.go:423-426 | swapping the last reference into the hole loses exactly the removed one, as a multiset and in every count |
| ScopeMembership.MembershipIsExact | pkg/controller/v1alpha2/applicationconfiguration/apply.go:102-158 | after a successful Apply each scope that asks for references holds exactly the rendered workloads of this application, once each, and every other application's references as often as before |
| ScopeMembership.MembershipIsExactlyWhen | pkg/controller/v1alpha2/applicationconfiguration/apply.go:102-158 | given success and no reference twice at first, that is so exactly when no such scope held a reference of ours neither recorded nor rendered |
| ScopeMembership.FailedApplyKeepsAccount | pkg/controller/v1alpha2/applicationconfiguration/apply.go:102-158 | however an Apply ends, it leaves other applications' references alone and its own within what was recorded and what is rendered, nowhere twice |
| ScopeMembership.AddWorkloads | pkg/controller/v1alpha2/applicationconfiguration/apply.go:108-155 | since the copies were read each scope gets at most one reference, to a workload rendered into it and not there before |
| ScopeMembership.ToLeaveExactly | pkg/controller/v1alpha2/applicationconfiguration/apply.go:287-340 | a recorded workload leaves exactly the recorded scopes it is no longer rendered into |
| ScopeMembership.DereferenceEffect | pkg/controller/v1alpha2/applicationconfiguration/apply.go:287-306 | removal touches exactly the recorded pairs no longer rendered, and never conflicts |
| ScopeMembership.FinalizeIsExact | pkg/controller/v1alpha2/applicationconfiguration/apply.go:309-319 | a finalizing that succeeds leaves no recorded workload in its recorded scope; every other reference stays whether it succeeds or not |
| ScopeMembership.FinalizeSucceedsExactlyWhen | pkg/controller/v1alpha2/applicationconfiguration/apply.go:384-441 | on a network that works it succeeds exactly when every recorded scope is gone or asks for references and has the list |
| ScopeRetries.ConflictIsProgress | pkg/controller/v1alpha2/applicationconfiguration/apply.go:342-382 | an Apply that fails by conflict has strictly reduced the set of references still to add |
| ScopeRetries.ConflictsAreBounded | pkg/controller/v1alpha2/applicationconfiguration/apply.go:102-158 | n attempts that fail by conflict need n references that were lacking at first |
| ScopeRetries.NothingElseGoesWrong | pkg/controller/v1alpha2/applicationconfiguration/apply.go:102-158 | with nothing misconfigured and a network that works, Apply succeeds or conflicts with itself |
| ScopeRetries.RetriesSucceed | pkg/controller/v1alpha2/applicationconfiguration/apply.go:102-158 | retried with fresh reads and no other writer of the scopes, Apply succeeds within as many attempts as references were lacking, plus one |
| ScopeRetries.SharedScopeConflicts | pkg/controller/v1alpha2/applicationconfiguration/render.go:206-214 | two workloads that both lack their reference in one scope cannot both get it in one Apply |
| ScopeRetries.NoUpdateIsLost | pkg/controller/v1alpha2/applicationconfiguration/apply.go:372-379 | a write from a copy of any age appends to what the server holds by now, or does nothing |
| ScopeRetries.NoApplyLosesUpdates | pkg/controller/v1alpha2/applicationconfiguration/apply.go:108-155 | applying from copies of any age, however it ends, loses or moves no reference of any scope |
| ApplyOnce.EveryObjectGetsItsOutcome | pkg/controller/v1alpha2/applicationconfiguration/apply.go:108-144 | a successful Apply creates, skips, patches or replaces each object that is not held back, depending on that object alone, and writes nothing else; skipping one does not stop later ones |
| ApplyOnce.ApplyLeavesObject | pkg/controller/v1alpha2/applicationconfiguration/applicationconfiguration.go:592-621 | with apply-once-only, however the requests fare, an Apply leaves alone an object whose stamp is the one it would get |
| ApplyOnceRuns.RenderedAgrees | pkg/controller/v1alpha2/applicationconfiguration/render.go:143-177 | all renderings of an object for one component and revision bring the same stamp, if its own inputs are not declared to fill labels or annotations |
| ApplyOnceRuns.ReconcileLeavesObject | pkg/controller/v1alpha2/applicationconfiguration/applicationconfiguration.go:230-346 | a whole reconcile, garbage collection and finalizing included, leaves such an object alone |
| ApplyOnceRuns.ObjectsStandAsOthersLeaveThem | pkg/controller/v1alpha2/applicationconfiguration/applicationconfiguration.go:592-621 | while generation and revision stay the same, any number of reconciles leaves an object whose inputs do not fill labels or annotations as others leave it, as long as they keep its stamp |
| ApplyOnceRuns.FilledLabelsEndApplyOnce | pkg/controller/v1alpha2/applicationconfiguration/applicationconfiguration.go:602-618 | an input that fills metadata.labels takes the mark away unless the source says otherwise, and an unmarked object is written again by every Apply that reaches it |
| Rendering.Unstructured.SetWorkloadInstanceName | pkg/controller/v1alpha2/applicationconfiguration/render.go:267-300 | the author's name, the component's name, the running workload's name or the revision's name, and the one error |
| Rendering.Components.GetTraitName | pkg/controller/v1alpha2/applicationconfiguration/render.go:810-846 | the nested loops pick the author's name, the last recorded one of the type or a generated one |
| Rendering.Components.GetExistingWorkload | pkg/controller/v1alpha2/applicationconfiguration/render.go:849-868 | the last recorded name decides what is looked up |
| Rendering.Components.Label | pkg/controller/v1alpha2/applicationconfiguration/render.go:143-161 | a rendered object's labels, annotations and owner |
| Rendering.Components.RenderComponent | pkg/controller/v1alpha2/applicationconfiguration/render.go:126-220 | one component, with every error |
| Rendering.Components.Render | pkg/controller/v1alpha2/applicationconfiguration/render.go:99-110 | all components, or the first error |
| RenderedFacts.RenderedObjectsAreStamped | pkg/controller/v1alpha2/applicationconfiguration/render.go:143-177 | every rendered workload and trait carries the controller's stamp, revision label and owner, whatever labels and annotations its author and the application bring, each of the three unless an input is declared to fill just that |
| RenderedFacts.RenderedScopes | pkg/controller/v1alpha2/applicationconfiguration/render.go:206-214 | every scope copy is fresh, and only an application that lists scopes renders into one |
| RenderedFacts.EnabledExactlyWhen | pkg/controller/v1alpha2/applicationconfiguration/render.go:303-309 | revisions are enabled for a workload exactly when some definition of its traits enables them |
| Contents.RenderedSaysWhatIsDrawn | pkg/controller/v1alpha2/applicationconfiguration/render.go:126-220 | a rendered workload has the content, labels and annotations of the draft of its component and parameters, and a trait those its author wrote, at every path no input is declared to fill; what is not held back holds the values of its sources at the others |
| Contents.EveryObjectIsAppliedAs | pkg/controller/v1alpha2/applicationconfiguration/apply.go:108-144 | after an Apply that succeeds an absent object is there as rendered, a trait is replaced by what was rendered, and a workload is patched, so that it says what was rendered and is as before where nothing was, unless apply-once-only leaves it alone |
| Contents.AppliedAsDrawn | pkg/controller/v1alpha2/applicationconfiguration/applicationconfiguration.go:291-317 | both together, for every workload and trait that a round hands over |
| Naming.RoundCallsThemSo | pkg/controller/v1alpha2/applicationconfiguration/render.go:267-300 | the name of every workload and trait a round renders: the author's, or for a workload without revisions the component's, with them the recorded one while its object carries the latest revision's label and the latest revision's otherwise; for a trait the last one recorded of its type |
| Naming.NamedTrait | pkg/controller/v1alpha2/applicationconfiguration/render.go:810-846 | and for a trait that was never recorded the component, its definition up to the first dot in lower case, and its hash |
| Naming.RecordedTraitIsLast | pkg/controller/v1alpha2/applicationconfiguration/render.go:828-838 | the recorded name of a trait is that of the last one of its type recorded for the component |
| Naming.RoundDrawsExactlyWhen | pkg/controller/v1alpha2/applicationconfiguration/render.go:126-220 | a round draws its objects exactly when every entry's component or revision is there and its workload can be drawn, its traits are known to discovery (with a definition or without), its scopes are there, and a workload to be named after a revision has one |
| Naming.RoundRendersExactlyWhen | pkg/controller/v1alpha2/applicationconfiguration/render.go:99-124 | and renders exactly when in addition no input of what is drawn stops it |
| Reconcile.Reconciler.Reconcile | pkg/controller/v1alpha2/applicationconfiguration/applicationconfiguration.go:230-346 | one reconcile, as a method over the application and the cluster, equals the reference transition |
| Outcomes.WorkingRound | pkg/controller/v1alpha2/applicationconfiguration/applicationconfiguration.go:291-345 | on a network that works a round that applies everything records each workload with its component, revision, traits, scopes and the message of traits without a definition, and leaves nothing that is eligible for collection |
| Outcomes.FailedRound | pkg/controller/v1alpha2/applicationconfiguration/applicationconfiguration.go:291-345 | an error in rendering, applying or collecting, and a status that is turned down, leave the recorded workloads as they were |
| Outcomes.IdleRound | pkg/controller/v1alpha2/applicationconfiguration/applicationconfiguration.go:237-240 | a round that cannot read the application, or finds it gone, does nothing |
| Outcomes.RegisteringRound | pkg/controller/v1alpha2/applicationconfiguration/applicationconfiguration.go:241-246 | an application with scopes gets its finalizer first, and nothing else in that round |
| Outcomes.UnregisteredRound | pkg/controller/v1alpha2/applicationconfiguration/applicationconfiguration.go:417-433 | and one without scopes never gets it |
| Outcomes.DeletingRound | pkg/controller/v1alpha2/applicationconfiguration/applicationconfiguration.go:247-257 | a deleted application is rendered no more, and without a finalizer it is gone |
| Outcomes.EligibleIsGone | pkg/controller/v1alpha2/applicationconfiguration/applicationconfiguration.go:324-339 | nothing eligible outlives a collection that succeeds, and on a network that works it does succeed, objects gone already included |
| Reconcile.Reconciler.SyncWith | pkg/controller/v1alpha2/applicationconfiguration/applicationconfiguration.go:291-345 | render, apply, collect, write status; an error in any of them leaves the recorded workloads as they were |
| Reconcile.Reconciler.UpdateStatus | pkg/controller/v1alpha2/applicationconfiguration/applicationconfiguration.go:348-383 | the new status is that of the rendered workloads merged with the texts of the old one |
| Reconcile.Reconciler.CollectAll | pkg/controller/v1alpha2/applicationconfiguration/applicationconfiguration.go:324-339 | deletes in order, ignores what is gone, stops at the first error |
| Reconcile.EligibleFor | pkg/controller/v1alpha2/applicationconfiguration/applicationconfiguration.go:537-580 | the loops compute the reference list, in order |
| Reconcile.AppliedReferences | pkg/controller/v1alpha2/applicationconfiguration/applicationconfiguration.go:538-554 | the set holds the reference of every rendered workload and trait |
| Reconcile.AppHasScope | pkg/controller/v1alpha2/applicationconfiguration/applicationconfiguration.go:426-433 | whether some component lists a scope |
| GarbageCollection.EligibleExactly | pkg/controller/v1alpha2/applicationconfiguration/applicationconfiguration.go:537-580 | an object is eligible exactly when a recorded reference to it, of a trait or of a workload not named after a revision, is not rendered |
| GarbageCollection.RenderedIsCollectedExactlyWhen | pkg/controller/v1alpha2/applicationconfiguration/applicationconfiguration.go:558-570 | a rendered object is collected exactly when the status records it with a UID |
| GarbageCollection.StatusTracksTheRendered | pkg/controller/v1alpha2/applicationconfiguration/applicationconfiguration.go:484-514 | the status written records exactly the rendered references, without UIDs |
| GarbageCollection.UntrackedIsGone | pkg/controller/v1alpha2/applicationconfiguration/applicationconfiguration.go:311-345 | a reference leaves the status only in a reconcile after which the object is gone, unless it is that of a workload named after a revision |
| GarbageCollection.RenderedIsNeverCollected | pkg/controller/v1alpha2/applicationconfiguration/applicationconfiguration.go:324-339 | while the status records no UIDs collection leaves rendered objects as they were applied |
| Lifecycle.TrackedOrDeleted | pkg/controller/v1alpha2/applicationconfiguration/applicationconfiguration.go:311-345 | over any life, with failures anywhere, a reference once recorded and no longer so was dropped by a reconcile that left the object deleted, or is exempt as a revision workload |
| Lifecycle.RenderedObjectsStay | pkg/controller/v1alpha2/applicationconfiguration/applicationconfiguration.go:324-339 | no reconcile of any life deletes what it renders |
| Lifecycle.FinalizerSafety | pkg/controller/v1alpha2/applicationconfiguration/applicationconfiguration.go:417-433 | in every reachable state a scope refers to a workload of the application only if the application carries the finalizer, or is gone without having recorded that pair |
| Lifecycle.FinalizerIsDroppedWhenClean | pkg/controller/v1alpha2/applicationconfiguration/apply.go:273-285 | only a reconcile of a deleted application drops the finalizer, after every recorded workload has left its recorded scope; other references stay as they are |
| Lifecycle.DeletionExactlyWhen | pkg/controller/v1alpha2/applicationconfiguration/applicationconfiguration.go:248-257 | on a network that works a deleted application is let go exactly when every recorded scope can be left |
| Lifecycle.DeletionLeavesNothingExactlyWhen | pkg/controller/v1alpha2/applicationconfiguration/apply.go:309-319 | deletion leaves no reference behind exactly when every reference was recorded |
| Lifecycle.UnrecordedReferencesStay | pkg/controller/v1alpha2/applicationconfiguration/applicationconfiguration.go:341-345 | a status write that fails, followed by deletion, leaves workloads in scopes of an application that is gone |
| LeftBehind.ReferencesCanBeLeftBehind | pkg/controller/v1alpha2/applicationconfiguration/applicationconfiguration.go:243-257 | a concrete life that ends with the application gone and a scope still referring to its workload |
| Blocked.BlockedForEver | pkg/controller/v1alpha2/applicationconfiguration/apply.go:384-441 | a deleted application that recorded a reference in a scope that cannot be left is not released by any number of reconciles, on any network, until somebody changes the scope |
| Blocked.DeletionCanBeBlocked | pkg/controller/v1alpha2/applicationconfiguration/apply.go:342-382 | a concrete life on a network that always works: the scope does not ask for references, the pair is recorded all the same, and after deletion and any number of reconciles the application is still there |
| LeftBehind.GoodRoundsExist | pkg/controller/v1alpha2/applicationconfiguration/applicationconfiguration.go:291-345 | the same application on a network that works goes through a round that meets everything the fixpoint theorem asks for |
| Lifecycle.RoundKeepsAccount | pkg/controller/v1alpha2/applicationconfiguration/applicationconfiguration.go:291-345 | a round keeps the account of references however it ends, and one that succeeds records every reference |
| Lifecycle.SuccessRecordsEverything | pkg/controller/v1alpha2/applicationconfiguration/applicationconfiguration.go:291-345 | however many rounds of a spec fail before and after it, and whatever others do in between, after a round that succeeds every reference is recorded |
| Lifecycle.DeletedStaysClean | pkg/controller/v1alpha2/applicationconfiguration/apply.go:273-285 | an application deleted while every reference is recorded leaves none behind, however often finalizing fails and whatever others do meanwhile |
| Lifecycle.SuccessMakesDeletionClean | pkg/controller/v1alpha2/applicationconfiguration/applicationconfiguration.go:243-257 | both together, over a whole life |
| Stability.ReconcileIsAFixpoint | pkg/controller/v1alpha2/applicationconfiguration/applicationconfiguration.go:537-580 | after a successful round the next one of the same spec renders the same references, however dependencies hold objects back, and collects nothing |
| Stability.InstanceKeepsName | pkg/controller/v1alpha2/applicationconfiguration/render.go:267-300 | naming a workload again from the status that records its name gives the same name |
| Stability.AttachingKeepsNameExactlyWhen | pkg/controller/v1alpha2/applicationconfiguration/render.go:274-293 | after attaching a revision-enabled trait the workload keeps its name exactly when it is there with the latest revision's label or is already named after it |
| Stability.LabelAfterRound | pkg/controller/v1alpha2/applicationconfiguration/render.go:143-149 | after a round a rendered workload carries its revision's label if it did before or if it was not held back |
| Stability.AttachingKeepsTheWorkload | pkg/controller/v1alpha2/applicationconfiguration/render.go:274-284 | after a successful round that applied the workload, or before which it carried its revision's label, attaching a revision-enabled trait at the same component revision leaves the workload its name, whether or not the round held it back |
| Stability.HandlerStoresWell | pkg/oam/util/helper.go:392-430 | the revisions the component handler stores unpack to components that carry the pinned revision as their latest and the name that is parsed from it |
| Stability.FirstRoundRecordsGeneratedName | pkg/oam/util/helper.go:357-365 | the first successful round with an unnamed trait records it under the name generated from its component, its type and its hash |
| Stability.TraitKeepsItsFirstName | pkg/controller/v1alpha2/applicationconfiguration/render.go:810-846 | from that round on, as long as the trait stays in the spec and however its content changes, it is recorded, rendered and never collected under that first name |
| Stability.TraitNameIsKept | pkg/controller/v1alpha2/applicationconfiguration/render.go:810-846 | once recorded, an unnamed trait that is alone of its type keeps its name as long as it stays in the spec, through edits of its content and failed and successful rounds |
| Stability.NamedTraitIsNeverCollected | pkg/controller/v1alpha2/applicationconfiguration/applicationconfiguration.go:567-576 | all that time each round that renders anything renders it under that name and does not collect it |

## Left out

- Data stores: `operationProcess`, `jsonOperation`, `ApplyInputRef`, `ApplyOutputRef` and the store conditions; they rest on JSON libraries that are not part of this model.
- Field paths with indices or brackets; a path here is a list of field names.
- The texts of reasons and error messages, events, conditions, logging, requeue times, timeouts and hooks (taken to be empty).
- `HistoryWorkloads` and `ObservedGeneration` in the status.
- How a trait's definition is found by label or discovery, the hash of a trait, and how a stored spec unpacks to a workload: functions of the catalogue, arbitrary but fixed; lower-casing covers ASCII only.
- While dependencies are handled, which objects cannot be read, and the application as a tree, are parameters of each round.
- Metadata other than name, labels, annotations and owners; a filled value put in two places is one shared map in the code and two copies here.
- The workload reference written into traits, which changes content only.
- The missing map and the empty map are one.
- Objects in a namespace other than the application's, or filled into one, and scopes that are at the same time workloads.
- Lists of scope references that are not lists of objects, and a list filled in over something that is no list, on which the code panics; the second is an ordinary error here.
- Other writers act between reconciles, not within one; the exception is `ScopeRetries.NoApplyLosesUpdates`, whose copies may be of any age. `Lifecycle.ByOthers` may not add references to the application's own workloads.
- Deletion of components and its owner references, stale informer events, cross-namespace names.
- Health checks of single workload kinds, discovery of peers, `translate.go`, ManualScaler, webhooks and the ContainerizedWorkload controller's cleanup.
- DependencyRounds.FinishesExactlyWhenAcyclic: assumes that nobody else creates or deletes the application's objects, that their keys differ and that no input is declared to fill a type or a name; an object that is renamed is another one (`Trees.FillRenames`).
- Convergence.EverythingIsApplied: assumes, besides what `Stability.ReconcileIsAFixpoint` does, that nothing takes over the key a workload is recorded under, and that others leave scopes and objects in place.
- RenderedFacts.RenderedObjectsAreStamped: promises each part only of objects whose inputs are not declared to fill that part; for the others it is false (`ApplyOnceRuns.FilledLabelsEndApplyOnce`).
- Stability.ReconcileIsAFixpoint: assumes components that occur once, unnamed traits that are alone of their type, inputs that fill no type or name and no labels of workloads, and workloads whose key no other component renders, because names are looked up by component and type; and that others keep the revision label of the rendered workloads.
- Stability.TraitNameIsKept: assumes that the component occurs once, that the trait is alone of its type in it, and that no input of the component's traits is declared to fill a type or a name; a name that is filled in is the source's (`Gating.FilledNameFollowsTheSource`).
