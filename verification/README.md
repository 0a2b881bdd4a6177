# BFE Ingress Controller: configuration engine

The controller turns Kubernetes ingresses, services and secrets into the configuration of a BFE process. Its
configuration engine is a lock-protected state machine: every event updates a few hand-maintained indexes in step and
renders route, cluster and TLS tables from them; a periodic reload pushes the tables to BFE, tracking by version what BFE
has already been given. This project models that engine and proves what it keeps.

How it is built:

- **Values and functions.** `RouteRules`, `RuleOrder`, `RuleLists` (rule cache and its lists), `Routing`,
  `DocumentedOrder` (which rule a request meets), `LostClaims` (rules put and deleted), `Names`, `Annotations`,
  `Clusters`, `ServerData`, `Tls`, `Documents` and `Reloads` hold the state of each component and its updates as
  functions. `ClusterInvariants`, `ClusterRuns`, `ServiceEvents`, `ServerInvariants`, `Admission`, `FailedUpdates` and
  `Versions` prove what these updates keep, let in, undo and lose. `FiledRules`, `RouteTables`, `SubClusters`,
  `StoredSecrets` and `ReloadContents` say what the results hold in terms of the Kubernetes objects and of what BFE reads:
  the requests a path serves, the cluster a table sends a request to, the instances and weights of a cluster, the pair of
  a secret, the content of each file.
- **The whole.** `Builder` composes the components into one state machine whose steps are the methods of `ConfigBuilder`;
  `BuilderRuns`, `BuilderEffects`, `BuilderFailures`, `BuilderClaims`, `BuilderSecrets` and `StaleTables` hold the results
  over whole runs.
- **Classes.** `RouteRuleCache`, `ServerDataConfig`, `ClusterConfig`, `TLSConfig`, `ConfigBuilder` and `Reloads.Bfe` have the
  source's fields and loops. Each method is proved to leave exactly the state that the function of the same name gives for
  the old one, with the same error, so that every result about the functions is a result about the methods.
- **What the program does not decide** is a parameter or a ghost result: the order in which Go iterates a map
  (`Enumeration`, `order`), the verdicts of library checks (`accepted`, `checkOk`, `keyPairParses`), and the outcome of every
  file operation and reload request. A result for all of these is a result for every behaviour of the environment.

What the proofs found, where the code is weaker than its documentation or than one would expect:

- `wildcardHost("*")` is false, so a catch-all rule is sorted above a wildcard rule although the documentation prefers the
  more precise host. The exact condition is `DocumentedOrder.DocumentedOrderExactly`.
- A one-character host ties with `*`, and which of the two a request meets depends on Go's map order.
- The sum of weights is a 64-bit sum: positive weights that wrap to zero are rejected.
- A failed update does not bring back the rules it displaced and does not render the route table again. The controllers
  delete an ingress after every failed update, and then the table goes on naming exactly its former clusters, which no longer
  exist (`StaleTables.DeletedAfterFailureStaysRouted`).
- First created wins among the rules put, but a deletion does not bring back the claims that the deleted rule had displaced or
  refused: the key stays empty, or goes to a younger claim, until they are put again or outbid by an older one
  (`BuilderClaims.EveryRunLiveExactly`).
- An ingress whose rules are removed keeps all the rules and clusters it had until it is deleted
  (`BuilderClaims.FormerRulesStay`).
- An update in place only adds: the cluster of a path that is gone, and the association of a secret that is gone, stay until
  the ingress is deleted.
- A failed update never undoes the secret associations it made, and leaves the clusters of an earlier version in place when
  the server data fails.
- A target port given by number also takes every endpoint port without a name, because the name asked for is then empty
  (`SubClusters.InstancesExactly`).
- `UpdateService` resets a weighted gslb cluster to the one service with the default weight.
- `DeleteService` leaves service2Cluster entries behind. Once the ingress is deleted too, the next `UpdateService` writes
  into a nil map; `UpdateService` calls `DeleteService` itself when it finds no target port.
- An ingress whose rules have an HTTP part without paths, rejected by the table check, can add the default backend to the
  cluster tables under the old version, and BFE is not told until something else changes them (`BuilderRuns.UnsafeRun`).
  The Kubernetes API server refuses such an ingress, so this input reaches the engine only past that validation.

## Model

| member | source | states |
|---|---|---|
| `BuilderRuns.EveryRunIsReloadSafe` | internal/bfeConfig/configBuilder.go:134-159 | After any interleaving of updates, failed dumps and failed reloads in which BFE misses no update: each of the seven files whose version is the one recorded as active holds, on disk and in BFE, the value in memory: host table, route table, configured clusters, gslb, cluster table, cert names, TLS rule, and every certificate and key in its own file |
| `BuilderRuns.EveryRunSafeExactly` | internal/bfeConfig/configBuilder.go:134-159 | A possible run is reload safe after each of its steps if and only if BFE misses none of its updates |
| `BuilderRuns.StepKeepsSafe` | internal/bfeConfig/configBuilder.go:51-159 | Every step of ConfigBuilder that BFE does not miss, with its rollbacks and file operations, keeps reload safety and the bounds on versions that keep it going |
| `BuilderRuns.LastStepSafeExactly` | internal/bfeConfig/configBuilder.go:51-159 | From a safe state a step leads to a safe state if and only if it is not a missed update |
| `BuilderRuns.SuccessfulReloadAgrees` | internal/bfeConfig/configBuilder.go:134-159 | A successful reload makes memory, disk and BFE agree on all three configurations, and does not change memory |
| `BuilderRuns.SuccessfulReloadWritesAll` | internal/bfeConfig/configBuilder.go:134-159 | After any run that misses no update, a successful reload leaves every file, on disk and in BFE, holding the route table, configured clusters, gslb, cluster table, cert names, certificates and keys that are in memory, with their versions |
| `ReloadContents.SafeExactly` | internal/bfeConfig/configs/serverDataConfig.go:381-416 | Reload safety is this statement about each file by name, under the version that guards it |
| `ReloadContents.AgreementExactly` | internal/bfeConfig/configs/TLSConfig.go:201-240 | Agreement is this statement about all files, the certificate and the key of every cert included |
| `BuilderRuns.SecondReloadIsIdle` | internal/bfeConfig/configBuilder.go:134-159 | With nothing changed since a successful reload, the next one succeeds without a file write or a request and changes nothing |
| `BuilderRuns.ClusterUpdateSafeExactly` | internal/bfeConfig/configs/clusterConfig.go:86-124 | For any recorded versions: an ingress update breaks the reload safety of the cluster tables if and only if its rules have no path, the table check rejects it, it owns no cluster, it brings in the default backend, and one of the two tables was recorded as given to BFE |
| `BuilderRuns.UnsafeRun` | internal/bfeConfig/configs/clusterConfig.go:86-124 | A concrete possible run that ends unsafe: a successful reload of a new builder, then a rejected ingress with a rule whose HTTP part has no paths (which Kubernetes API validation would refuse before) |
| `BuilderRuns.ReloadCanSucceed` | internal/bfeConfig/configBuilder.go:134-159 | From every state a reload may succeed, so the results about successful reloads are about something |
| `Versions.UnversionedExactly` | internal/bfeConfig/configs/clusterConfig.go:86-124 | Every other ingress update gives both cluster tables a version newer than everything before, or changes neither |
| `BuilderRuns.EveryRunKeepsIndexes` | internal/bfeConfig/configBuilder.go:51-112 | After every run: rule cache, cluster configuration and certificates satisfy their invariants (buckets and one-directional index, conditions that build, covered and owned clusters, non-empty gslb clusters, referenced certs) |
| `BuilderEffects.EveryRunIsRoutable` | internal/bfeConfig/configBuilder.go:51-81 | After every run each live rule's cluster belongs to the rule's ingress in ingress2Cluster, failed updates and rollbacks included |
| `BuilderEffects.RoutableIsInTable` | internal/bfeConfig/configBuilder.go:51-81 | Hence each live rule routes to a cluster that the cluster table has, and that carries the rule's ingress as its owner |
| `BuilderEffects.DeleteIsExact` | internal/bfeConfig/configBuilder.go:74-81 | In any reachable state, after a failed update too, DeleteIngress leaves no live rule, no cluster and no secret association of the ingress, keeps exactly the certs another ingress refers to, and leaves every other ingress's rules, clusters and associations as they were |
| `BuilderFailures.FailedUpdateLeaves` | internal/bfeConfig/configBuilder.go:51-72 | A failed UpdateIngress leaves the ingress no live rule; its clusters stay exactly when the server data fails first; the secret associations of a TLS error are never undone |
| `BuilderFailures.FailsOnlyByItself` | internal/bfeConfig/configBuilder.go:55-57 | With the library accepting, the server data part fails if and only if, in the state before, one of the ingress's paths has an illegal host or path or a key that an older rule of another ingress holds, or its own annotation is malformed and one of its paths' keys is free or held by a younger rule |
| `BuilderFailures.EveryRunIsIntegral` | internal/bfeConfig/configs/serverDataConfig.go:219-301 | On all runs where the library accepts when rules are withdrawn: the configured clusters are exactly those the route table names (ADVANCED_MODE aside), although the two tables come from separate get calls |
| `StaleTables.EveryRunInSyncExactly` | internal/bfeConfig/configs/serverDataConfig.go:109-147 | On all runs where the library accepts when rules are withdrawn: the route table is a rendering of the live rules if and only if no failed update has cost a live rule since the last rendering |
| `StaleTables.StepSyncs` | internal/bfeConfig/configs/serverDataConfig.go:109-147 | One step: a rendering brings the table in sync whatever it was before, a loss leaves it behind for good until the next rendering, and anything else changes neither table nor rules |
| `StaleTables.NamedExactly` | internal/bfeConfig/configs/serverDataConfig.go:219-270 | Apart from the default cluster, a table in sync names exactly the clusters of the live rules |
| `StaleTables.EveryRunRoutesToTable` | internal/bfeConfig/configBuilder.go:51-81 | On those runs every cluster the route table names, the default one aside, is in the cluster table |
| `StaleTables.EveryRunServesRightly` | internal/bfeConfig/configs/serverDataConfig.go:219-270 | On those runs, for every request: the first entry of the advanced table that holds names the cluster of a matching advanced rule that no matching advanced rule precedes; without such a rule the default cluster, when there is a default backend and a rule; else none holds. The basic table is that of the live rules |
| `StaleTables.EveryReloadServesRightly` | internal/bfeConfig/configBuilder.go:134-159 | After a successful reload it is this table that BFE has loaded |
| `RouteTables.TableServes` | internal/bfeConfig/configs/serverDataConfig.go:219-270 | Every rendered table sends a request to the cluster of the rule it is routed to, whatever the iteration order, and the default entry only gets what no rule matches |
| `RouteTables.BasicTableExactly` | internal/bfeConfig/configs/serverDataConfig.go:219-236 | The basic table has exactly one entry for each (host, path) with a rule and no other, with no hostname for any host: the cluster of the rule when it is the only one and has no router annotation, else ADVANCED_MODE |
| `StaleTables.DeletedAfterFailureStaysRouted` | internal/controllers/ingress/netv1/ingress_controller.go:141-142 | When an update fails in the server data and the ingress is then deleted, as the controllers do, the route table stays as it was, and of the clusters it names (default aside) exactly those of the ingress's own former rules, which are those that carry its name, are missing from the cluster table |
| `BuilderFailures.AssociationsKept` | internal/bfeConfig/configs/TLSConfig.go:105-119 | An update only adds secret associations: a secret the ingress no longer names stays associated |
| `BuilderClaims.EveryRunHasHistory` | internal/bfeConfig/configs/serverDataConfig.go:109-162 | After every run the rule cache is what a run of puts and deletes gives, refused puts, rollbacks and early returns included, in which every rule put is a new one |
| `BuilderClaims.EveryRunLiveExactly` | internal/bfeConfig/configs/routeRuleCache.go:134-182 | After every run of ConfigBuilder: a key is held by the rule that putting the remaining rules from scratch would give it, if and only if every remaining claim to it that a since deleted rule had displaced or refused has been outbid since by an older one |
| `BuilderClaims.FormerRulesStay` | internal/bfeConfig/configs/serverDataConfig.go:109-119 | After any run, a successful update leaves its ingress the live rules it had if and only if the ingress has no rules any more, or it had no live rule and none of its paths' keys is open; without rules its clusters stay too |
| `BuilderEffects.DroppedPathsStay` | internal/bfeConfig/configs/clusterConfig.go:93-109 | An accepted update only adds clusters: the ingress's clusters are those of its paths if and only if each cluster it had before is one of these; without rules it keeps all of them |
| `ConfigBuilder.ConfigBuilder.UpdateIngress` | internal/bfeConfig/configBuilder.go:51-72 | The three updates in order; an error rolls back the server data, and a TLS error the clusters too |
| `ConfigBuilder.ConfigBuilder.DeleteIngress` | internal/bfeConfig/configBuilder.go:74-81 | The three deletions; on disk only cert and key files of removed certs may change |
| `ConfigBuilder.ConfigBuilder.UpdateService` | internal/bfeConfig/configBuilder.go:83-88 | Only the cluster configuration changes, for some order of the service's clusters; reports where the source would panic |
| `ConfigBuilder.ConfigBuilder.DeleteService` | internal/bfeConfig/configBuilder.go:90-95 | Only the cluster configuration changes |
| `ConfigBuilder.ConfigBuilder.UpdateSecret` | internal/bfeConfig/configBuilder.go:97-105 | Only the TLS configuration changes; returns the key pair's error |
| `ConfigBuilder.ConfigBuilder.DeleteSecret` | internal/bfeConfig/configBuilder.go:107-112 | Only the TLS configuration and the secret's two files change |
| `ConfigBuilder.ConfigBuilder.Reload` | internal/bfeConfig/configBuilder.go:134-159 | The three Reload methods in order, stopping at the first that fails |
| `RouteRules.RunRefines` | internal/bfeConfig/configs/routeRuleCache.go:134-182 | Over all runs of put and delete the nested maps with their reverse index hold exactly what a plain map from (host, path, cookie, header) to one rule holds, and keep their invariant |
| `RouteRules.PutRefines` | internal/bfeConfig/configs/routeRuleCache.go:156-182 | One put is the documented principle on the plain map, with the same error |
| `RouteRules.DeleteRefines` | internal/bfeConfig/configs/routeRuleCache.go:134-154 | One delete removes from the plain map exactly the ingress's own rules |
| `RouteRules.PutKeepsInv` | internal/bfeConfig/configs/routeRuleCache.go:156-182 | Buckets stay non-empty, without conflicts, under their own host and path, and every live rule indexed under its ingress, although displaced rules accumulate in the index |
| `RouteRules.DeleteKeepsInv` | internal/bfeConfig/configs/routeRuleCache.go:134-154 | The same for delete |
| `RouteRules.IndexReachesEveryRule` | internal/bfeConfig/configs/routeRuleCache.go:134-154 | Walking the loose reverse index prunes exactly what a walk over every bucket would |
| `RouteRules.DisplacedRuleStaysIndexed` | internal/bfeConfig/configs/routeRuleCache.go:163-170 | A displaced rule is no longer live, and stays in the reverse index if and only if it belongs to another ingress than the rule that displaced it |
| `RouteRules.FirstCreatedWins` | internal/bfeConfig/configs/routeRuleCache.go:156-182 | For any sequence of puts the live rule of a key is the earliest-put among the claims with minimal creation time |
| `LostClaims.LiveFromScratchExactly` | internal/bfeConfig/configs/routeRuleCache.go:134-182 | For any sequence of puts and deletes in which no rule is put twice: the live rule of a key is the one that putting the remaining rules from scratch would give, if and only if every remaining claim that a deleted rule had kept out has been outbid since by an older one |
| `LostClaims.LiveIsCurrent` | internal/bfeConfig/configs/routeRuleCache.go:134-182 | After any puts and deletes the live rule of a key is the first created of the remaining claims put since its live rule was last deleted |
| `LostClaims.DeletionKeepsScratchExactly` | internal/bfeConfig/configs/routeRuleCache.go:134-154 | One deletion keeps a key at the first created of the remaining claims unless, and only unless, it takes the key's live rule while another ingress still claims the key |
| `LostClaims.DisplacedStaysOut` | internal/bfeConfig/configs/routeRuleCache.go:163-170 | For any two conflicting rules: when the older displaces the younger and is then deleted, the key is empty, while the younger put from scratch would hold it |
| `RouteRules.PutOrderIrrelevant` | docs/en_us/ingress/conflict.md:6-10 | Two orders of the same puts leave the same live rule for a key whose claims have distinct creation times |
| `RouteRuleCache.HttpRouteRuleCache.Put` | internal/bfeConfig/configs/routeRuleCache.go:156-182 | The loop over the bucket does one put and returns its error, and keeps the invariant |
| `RouteRuleCache.HttpRouteRuleCache.Delete` | internal/bfeConfig/configs/routeRuleCache.go:134-154 | The loop over the reverse index deletes the ingress's rules from every bucket, and keeps the invariant |
| `RouteRuleCache.DelRuleLoop` | internal/bfeConfig/configs/routeRuleCache.go:184-192 | The filtering loop computes DelRule |
| `RouteRules.DelRuleFacts` | internal/bfeConfig/configs/routeRuleCache.go:184-192 | delRule keeps exactly the other ingresses' rules, and everything when it keeps the length |
| `RouteRuleCache.HttpRouteRuleCache.Get` | internal/bfeConfig/configs/routeRuleCache.go:85-132 | The nested loops compute the two lists for the order in which the maps were iterated, without changing the cache: one basic entry per (host, path), and a sorted advanced list of exactly the rules of advanced buckets |
| `RuleLists.GetConserves` | internal/bfeConfig/configs/routeRuleCache.go:85-132 | The basic list has exactly one entry per live (host, path); the advanced list is sorted, without repetition, and its members are exactly the live rules of advanced buckets |
| `RuleLists.OnExactlyOneList` | internal/bfeConfig/configs/routeRuleCache.go:85-132 | Every live rule appears as itself on exactly one of the two lists |
| `RuleOrder.LessIsLexicographic` | internal/bfeConfig/configs/routeRuleCache.go:109-129 | The comparator is the lexicographic comparison of (host not wildcard, host length, path not wildcard, path length, annotation priority, earlier creation), for all rules |
| `RuleOrder.StrictWeakOrder` | internal/bfeConfig/configs/routeRuleCache.go:109-129 | The comparator is a strict weak order, as sort.SliceStable demands |
| `RuleOrder.StableSortUnique` | internal/bfeConfig/configs/routeRuleCache.go:108-129 | The contract of a stable sort leaves no choice: sorted and with ties in their old order determines the list |
| `RuleOrder.SortFacts` | internal/bfeConfig/configs/routeRuleCache.go:108-129 | The stable sort yields a sorted permutation |
| `RuleOrder.SortStable` | internal/bfeConfig/configs/routeRuleCache.go:108-129 | The stable sort keeps tied rules in order |
| `Routing.OrderIndependentExactly` | internal/bfeConfig/configs/routeRuleCache.go:85-132 | The first matching advanced rule of a request is the same for every order of iterating the maps if and only if all best matching rules share a host and path |
| `Routing.RoutingIsDeterministic` | internal/bfeConfig/configs/routeRuleCache.go:85-132 | That holds for every request unless a live rule has a one-character host beside a live catch-all |
| `Routing.OneCharacterHostDependsOnOrder` | internal/bfeConfig/configs/routeRuleCache.go:109-129 | With hosts '*' and 'x' it fails: a concrete cache and request whose route depends on the order |
| `Routing.TieSharesPlace` | internal/bfeConfig/configs/routeRuleCache.go:109-129 | Two rules that match one request and tie in the comparator have the same path, and the same host unless one is '*' and the other a single character |
| `Routing.FirstMatchOfSort` | internal/bfeConfig/configs/routeRuleCache.go:108-131 | The first match of the sorted list is the best match of the unsorted one |
| `DocumentedOrder.LessIsDocumented` | docs/en_us/ingress/priority.md:4-8 | On the rules a request matches the comparator is the documented order (more precise host, more precise path, more conditions, cookie over header, older), apart from the catch-all host |
| `DocumentedOrder.DocumentedUnlessCatchAll` | docs/en_us/ingress/priority.md:4-8 | The first match is the documented choice if and only if it is not a catch-all rule while a more specific host matches |
| `DocumentedOrder.DocumentedOrderFailsExactly` | docs/en_us/ingress/priority.md:4-8 | For every request: the documented order fails if and only if a more specific host matches and the comparator puts a matching catch-all rule before every such rule |
| `DocumentedOrder.DocumentedOrderExactly` | docs/en_us/ingress/priority.md:4-8 | Read off the hosts alone, for a request whose host is not a single character: the documented order fails if and only if a catch-all and a wildcard rule match and no exact host does |
| `DocumentedOrder.CatchAllShadowsWildcard` | internal/bfeConfig/configs/routeRuleCache.go:222-228 | A concrete request for which the catch-all host is sorted above the wildcard host |
| `DocumentedOrder.HostClassIsPrecision` | docs/en_us/ingress/priority.md:5 | Exact over wildcard over any is precision: the higher class matches strictly fewer requests |
| `DocumentedOrder.PathBeforeIsPrecision` | docs/en_us/ingress/priority.md:6 | The path order never prefers the wider of two paths that match a request |
| `DocumentedOrder.DeclaredIsRendered` | internal/bfeConfig/annotations/router.go:29-51 | With non-empty annotation values the conditions counted are the conditions rendered |
| `Names.ParsePortInvertsClusterName` | internal/bfeConfig/util/name.go:26-54 | ParsePort recovers the backend's port from the cluster name, for every positive int32 number and every port name valid under section 5.1 of RFC 6335 |
| `Names.ClusterNameInjective` | internal/bfeConfig/util/name.go:26-32 | Cluster names of Kubernetes names determine ingress, service and port |
| `Names.OwnerOfClusterName` | internal/bfeConfig/util/name.go:26-38 | A cluster name carries its ingress as its owner, and is never the default cluster's name |
| `Names.NamespacedNameInjective` | internal/bfeConfig/util/name.go:56-61 | Namespaced names determine namespace and name |
| `Names.DecimalRoundTrip` | internal/bfeConfig/util/name.go:26-54 | Printing a number and reading its digits gives it back |
| `FiledRules.RuleServesPath` | internal/bfeConfig/configs/serverDataConfig.go:164-198 | The rule that addRule files for a path of an ingress matches a request exactly when the ingress host admits its host (any, the host itself, or one label below a wildcard), the path admits its path (equal when Exact, else below it), and it carries the cookie and header that the annotations ask for; it names the path's cluster, and carries the ingress's name, annotations and creation time |
| `FiledRules.PathFiled` | internal/bfeConfig/configs/serverDataConfig.go:178-180 | Only a path of type Exact is filed to match exactly; every other type, and none, to match by path element prefix |
| `FiledRules.HostFiled` | internal/bfeConfig/configs/serverDataConfig.go:169-171 | A legal host is filed so that exactly the hosts it admits match |
| `FiledRules.CheckHostExactly` | internal/bfeConfig/configs/serverDataConfig.go:200-206 | checkHost accepts a host exactly when it has no star, or a single one at its front, before a dot |
| `FiledRules.ParsesExactly` | internal/bfeConfig/annotations/router.go:54-66 | A router annotation yields a name and a value exactly when they are what stands before and after its first colon, without the space around them, and something follows the colon |
| `FiledRules.AnnotationsExactly` | internal/bfeConfig/annotations/router.go:29-51 | GetRouteExpression admits a request exactly when it carries the cookie and the header asked for; a malformed annotation admits none |
| `FiledRules.TrimSpaceTrims` | internal/bfeConfig/annotations/router.go:62 | Trimming takes all the space from both ends and nothing else |
| `Annotations.RouteExpressionBuilds` | internal/bfeConfig/annotations/router.go:29-80 | GetRouteExpression succeeds if and only if both annotation values are well formed |
| `Annotations.MalformedIsAdvanced` | internal/bfeConfig/annotations/priority.go:23-36 | A rule with a malformed annotation is never basic, so it is always rendered |
| `Annotations.GetBalance` | internal/bfeConfig/annotations/balance.go:32-58 | The nested loops accept a decoded balance exactly when every service's weights are accepted |
| `Annotations.AcceptedIsPositive` | internal/bfeConfig/annotations/balance.go:44-56 | Accepted weights are not empty and one of them is positive |
| `Annotations.AcceptedExactly` | internal/bfeConfig/annotations/balance.go:44-56 | Non-negative weights are accepted if and only if their sum is positive and not a multiple of 2^64 |
| `Annotations.WrappedSumIsRejected` | internal/bfeConfig/annotations/balance.go:44-56 | Three positive weights whose 64-bit sum wraps to zero are rejected |
| `ClusterInvariants.UpdateIngressKeepsInv` | internal/bfeConfig/configs/clusterConfig.go:86-152 | Covered services, clusters owned by the ingress in their name, and non-empty non-negative gslb clusters within the table survive an ingress update, accepted or rejected |
| `ClusterInvariants.DeleteIngressKeepsInv` | internal/bfeConfig/configs/clusterConfig.go:154-185 | They survive an ingress deletion |
| `ClusterInvariants.UpdateServiceKeepsInv` | internal/bfeConfig/configs/clusterConfig.go:299-326 | They survive a service update whatever its outcome |
| `ClusterInvariants.DeleteServiceKeepsInv` | internal/bfeConfig/configs/clusterConfig.go:328-348 | They survive a service deletion, which prunes gslb clusters that become empty |
| `ClusterInvariants.OneOwner` | internal/bfeConfig/configs/clusterConfig.go:86-185 | Every non-default cluster of the table or gslb is owned by exactly one ingress |
| `ClusterInvariants.SameServices` | internal/bfeConfig/configs/clusterConfig.go:188-297 | newClusterBackend and newGslbClusterConf list the same, non-empty set of services |
| `ClusterInvariants.EffectiveBalanceOk` | internal/bfeConfig/annotations/balance.go:32-58 | The balance an ingress update works with has no empty entry and no negative weight, the error that is dropped included |
| `ClusterInvariants.DeleteIngressIsExact` | internal/bfeConfig/configs/clusterConfig.go:154-185 | A deleted ingress has no cluster left, and every other cluster is unchanged |
| `ClusterInvariants.PositiveWeightLeft` | internal/bfeConfig/configs/clusterConfig.go:328-348 | DeleteService leaves a gslb cluster if and only if another service is in it, with a positive weight if and only if another service had one |
| `ClusterRuns.Undo` | internal/bfeConfig/configs/clusterConfig.go:86-211 | For an ingress without clusters, update then delete restores table, gslb and ingress2Cluster (default cluster aside), and service2Cluster if and only if it held no stale entry for the written clusters |
| `SubClusters.UpdateBuildsClusters` | internal/bfeConfig/configs/clusterConfig.go:93-109 | After an accepted update each path's cluster is in both tables and owned by the ingress: over its service with weight 10, or over exactly the services and weights of the accepted balance annotation; of each of them with its instances at the target port of the path's port there, and each leading back to the cluster |
| `SubClusters.BackendConsists` | internal/bfeConfig/configs/clusterConfig.go:188-211 | newClusterBackend and newGslbClusterConf build exactly this for one backend |
| `SubClusters.InstancesExactly` | internal/bfeConfig/configs/clusterConfig.go:228-240 | For a target port the instances are, in the order of subsets, ports and addresses, one of weight 10 for each address of a subset under each of its ports with that number or name, at that endpoint port; no others |
| `SubClusters.InstanceExactly` | internal/bfeConfig/configs/clusterConfig.go:228-240 | The same as membership |
| `SubClusters.FirstInstance` | internal/bfeConfig/configs/clusterConfig.go:214-226 | Without endpoints nil; without a target port the first address at the first port of the first subset, or nothing |
| `SubClusters.TargetPortExactly` | internal/bfeConfig/configs/clusterConfig.go:244-272 | The first service port whose number and name are those asked for decides: its name, else its positive numeric target port, else none; none too when no port fits |
| `SubClusters.DefaultClusterExactly` | internal/bfeConfig/configs/clusterConfig.go:126-152 | After an accepted update the default cluster is the one there was, else one of the default backend's first instance if it has one, else absent |
| `SubClusters.DefaultGoesWithLast` | internal/bfeConfig/configs/clusterConfig.go:173-176 | A deletion takes the default cluster exactly when no other ingress owns a cluster |
| `SubClusters.DeleteServiceIsExact` | internal/bfeConfig/configs/clusterConfig.go:328-348 | DeleteService takes exactly the service out of every cluster, and exactly the gslb clusters that had no other |
| `SubClusters.UpdateServiceCompletesExactly` | internal/bfeConfig/configs/clusterConfig.go:299-326 | UpdateService completes if and only if each cluster its service leads to is in the table and has a target port there, the default backend needing none |
| `SubClusters.FailedServiceUpdate` | internal/bfeConfig/configs/clusterConfig.go:314-317 | One that fails takes exactly its service out of every cluster, those already updated included |
| `ServiceEvents.ServiceEntryIsRebuilt` | internal/bfeConfig/configs/clusterConfig.go:299-326 | In any state: a completed UpdateService of a service that leads to the cluster of a path leaves its entry as newClusterBackend computes it from the new service and endpoints, the other entries alone, and the weights of this one service |
| `ServiceEvents.WeightsAgreeExactly` | internal/bfeConfig/configs/clusterConfig.go:284-322 | These are the weights of an ingress update if and only if the balance does not split the backend, or leaves it to this service with the default weight |
| `ServiceEvents.ServiceUpdatesKeepUpToDate` | internal/bfeConfig/configs/clusterConfig.go:299-326 | From any state where a path's cluster is up to date, it is so after any sequence of completed service updates with the latest services and endpoints, with exactly the updated services added that lead there |
| `ServiceEvents.ServiceUpdatesAreRebuild` | internal/bfeConfig/configs/clusterConfig.go:86-124 | After an accepted ingress update and any sequence of completed service updates, every service of every cluster of the ingress is as an ingress update with the latest services and endpoints would leave it; the whole cluster is if and only if no service led there by a stale entry |
| `ServiceEvents.UpdateServiceEffect` | internal/bfeConfig/configs/clusterConfig.go:299-326 | It rewrites exactly the clusters listed under the service, and resets their weights to the one service |
| `ServiceEvents.CrashFreeExactly` | internal/bfeConfig/configs/clusterConfig.go:314-319 | UpdateService never writes into a missing cluster, whatever the event, if and only if service2Cluster has no dangling entry |
| `ServiceEvents.GentleRunsNeverCrash` | internal/bfeConfig/configs/clusterConfig.go:299-348 | On runs without DeleteService and without a cluster shrinking, service2Cluster is the exact inverse of the table, so that write always finds its cluster |
| `ServiceEvents.DeletedServiceDangles` | internal/bfeConfig/configs/clusterConfig.go:328-348 | After update, DeleteService and DeleteIngress of any ingress, the service still leads to the deleted cluster, and the next update of it crashes |
| `ClusterConfig.ClusterConfig.UpdateIngress` | internal/bfeConfig/configs/clusterConfig.go:86-124 | The nested loops write the cluster of every path into all four maps with the balance that GetBalance accepted, and a rejected table deletes the ingress again |
| `ClusterConfig.ClusterConfig.AddDefaultBackend` | internal/bfeConfig/configs/clusterConfig.go:126-152 | Adds the default cluster only when it is missing and the endpoints give it an instance |
| `ClusterConfig.ClusterConfig.DeleteIngress` | internal/bfeConfig/configs/clusterConfig.go:154-179 | The nested loops remove the ingress's clusters from all four maps, and the default cluster with the last ingress |
| `ClusterConfig.ClusterConfig.DelDefaultBackend` | internal/bfeConfig/configs/clusterConfig.go:181-185 | Removes the default cluster from both tables and from service2Cluster |
| `ClusterConfig.ClusterConfig.UpdateService` | internal/bfeConfig/configs/clusterConfig.go:299-326 | The loop computes Clusters.UpdateService for the order in which the clusters were handed out, a panic told apart |
| `ClusterConfig.ClusterConfig.DeleteService` | internal/bfeConfig/configs/clusterConfig.go:328-348 | The loop prunes the service from its clusters, and gslb clusters that become empty |
| `ClusterConfig.ClusterConfig.NewClusterBackend` | internal/bfeConfig/configs/clusterConfig.go:188-211 | The loop builds the subclusters of a backend or of its balance entry |
| `ClusterConfig.ClusterConfig.NewSubClusterBackend` | internal/bfeConfig/configs/clusterConfig.go:214-241 | The nested loops collect the instances of the target port, or the first address when there is none (as SubClusters.InstancesExactly and FirstInstance describe them) |
| `ClusterConfig.ClusterConfig.GetTargetPort` | internal/bfeConfig/configs/clusterConfig.go:244-272 | The loop finds the target port of the first fitting service port |
| `ClusterConfig.ClusterConfig.NewGslbClusterConf` | internal/bfeConfig/configs/clusterConfig.go:284-297 | The loop builds the weights |
| `ClusterConfig.ClusterConfig.Reload` | internal/bfeConfig/configs/clusterConfig.go:350-377 | Dumps what is dirty, reloads once if anything was, and records the versions on success only |
| `ServerInvariants.UpdateIngressKeepsCacheOk` | internal/bfeConfig/configs/serverDataConfig.go:109-135 | Every live rule's condition builds after an update too: a malformed ingress never gets past rendering |
| `ServerInvariants.DeleteIngressKeepsCacheOk` | internal/bfeConfig/configs/serverDataConfig.go:137-147 | The same after a deletion |
| `ServerInvariants.RenderFailsExactly` | internal/bfeConfig/configs/serverDataConfig.go:219-270 | Rendering the route table succeeds if and only if every live rule's condition builds, basic rules being left out of account soundly |
| `Admission.UpdateCacheAt` | internal/bfeConfig/configs/serverDataConfig.go:149-217 | updateCache succeeds if and only if no path is blocked by the rules before it, and of the keys of the paths before the first blocked one it takes exactly those that are free or held by a younger rule |
| `Admission.CachedExactly` | internal/bfeConfig/configs/serverDataConfig.go:149-198 | Caching an ingress's rules succeeds if and only if none of its paths has an illegal host or path or a key held by an older rule, all read off the state before |
| `Admission.BlockedByOthers` | internal/bfeConfig/configs/serverDataConfig.go:109-118 | In the state before, only a rule of another ingress can hold a key against a path |
| `Admission.OwnRuleExactly` | internal/bfeConfig/configs/serverDataConfig.go:149-198 | The ingress then gets a live rule if and only if one of its paths' keys is free or held by a younger rule |
| `Admission.OwnRulesAfterUpdate` | internal/bfeConfig/configs/serverDataConfig.go:109-135 | The live rules of the ingress after a successful update: the rule of the first path with each key that is open in the state before, and nothing of its former rules; with no rules given, its former rules |
| `Admission.OwnRuleServes` | internal/bfeConfig/configs/serverDataConfig.go:109-198 | Each live rule that a successful update leaves its ingress serves exactly the requests that one of its paths is for, from that path's cluster; the path is the first with its key, and the key was open |
| `Admission.OpenPathIsServed` | internal/bfeConfig/configs/serverDataConfig.go:109-198 | Conversely each such path gets a live rule that serves exactly its requests |
| `Kube.HostPathsAt` | internal/bfeConfig/configs/serverDataConfig.go:149-162 | The nested loops visit every path of every rule under its host, in order |
| `Kube.HostPathsSource` | internal/bfeConfig/configs/serverDataConfig.go:149-162 | They visit nothing else |
| `Admission.FormerRulesStayExactly` | internal/bfeConfig/configs/serverDataConfig.go:109-119 | The former rules are all it has if and only if no rules are given, or there were none and no key is open |
| `Admission.UpdateFailsOnlyByItself` | internal/bfeConfig/configs/serverDataConfig.go:109-135 | With the library accepting, an update fails if and only if one of its paths is blocked, or its own annotation is malformed and one of its paths would get a rule in |
| `ServerInvariants.DeleteAlwaysRenders` | internal/bfeConfig/configs/serverDataConfig.go:137-147 | With the library accepting, the error that DeleteIngress ignores never occurs |
| `ServerInvariants.ConfiguredOnce` | internal/bfeConfig/configs/serverDataConfig.go:272-301 | Two get calls configure the same clusters, whatever order each of them took |
| `ServerInvariants.UpdateIngressKeepsIntegral` | internal/bfeConfig/configs/serverDataConfig.go:219-301 | An update keeps the agreement of route table and configured clusters |
| `ServerInvariants.DeleteIngressKeepsIntegral` | internal/bfeConfig/configs/serverDataConfig.go:137-147 | So does a deletion |
| `ServerInvariants.DeleteIngressIsExact` | internal/bfeConfig/configs/serverDataConfig.go:137-147 | A deletion takes exactly the ingress's live rules, the early return included |
| `ServerInvariants.UnindexedHasNoRule` | internal/bfeConfig/configs/serverDataConfig.go:137-142 | An ingress without an index entry has no live rule, so the early return is sound |
| `FailedUpdates.FailedUpdateLosesExactly` | internal/bfeConfig/configs/serverDataConfig.go:121-129 | The live rules after a failed update are those before it, without the ingress's own and without the younger rules whose key one of its paths before the first blocked one claims |
| `FailedUpdates.StaleExactly` | internal/bfeConfig/configs/serverDataConfig.go:121-129 | From a route table in sync with the rules, a failed update leaves it in sync if and only if it lost no live rule, as read off the state before |
| `FailedUpdates.TableCount` | internal/bfeConfig/configs/serverDataConfig.go:219-270 | A rendered table has one basic entry per (host, path), one advanced entry per advanced rule, and the default entry when there is any rule |
| `ServerDataConfig.ServerDataConfig.UpdateIngress` | internal/bfeConfig/configs/serverDataConfig.go:109-135 | Replaces the ingress's rules and renders both tables, for possible iteration orders; every failure leaves the tables and withdraws the ingress's rules |
| `ServerDataConfig.ServerDataConfig.DeleteIngress` | internal/bfeConfig/configs/serverDataConfig.go:137-147 | Withdraws the ingress's rules and renders both tables, or does nothing when it has no index entry |
| `ServerDataConfig.ServerDataConfig.UpdateCache` | internal/bfeConfig/configs/serverDataConfig.go:149-162 | The nested loops put the rules of every path, stopping at the first error |
| `ServerDataConfig.ServerDataConfig.AddRule` | internal/bfeConfig/configs/serverDataConfig.go:164-217 | Checks host and path, fills in '*', and puts one rule (FiledRules.RuleServesPath says which requests it serves) |
| `ServerDataConfig.ServerDataConfig.UpdateRouteTable` | internal/bfeConfig/configs/serverDataConfig.go:219-270 | The loops render both lists; a condition that does not build or a rejection leaves the table as it was (RouteTables.TableServes and BasicTableExactly say what the table means) |
| `ServerDataConfig.ServerDataConfig.UpdateBfeClusterConf` | internal/bfeConfig/configs/serverDataConfig.go:272-301 | The loops configure the clusters of both lists and the default backend |
| `ServerDataConfig.ServerDataConfig.Reload` | internal/bfeConfig/configs/serverDataConfig.go:381-416 | Dumps what is dirty, reloads once if anything was, and records the versions on success only |
| `Tls.EveryRunKeepsInv` | internal/bfeConfig/configs/TLSConfig.go:105-199 | After every run CertConf names exactly the certs and the default, and every cert is referenced by some ingress |
| `StoredSecrets.EveryRunConfigures` | internal/bfeConfig/configs/TLSConfig.go:105-199 | After every run each name is in certs exactly when a secret of that name is configured, with the certificate and the key of the last one stored, from SecretUpdated or from an ingress's secrets before the first bad pair, and not deleted since |
| `StoredSecrets.UpdateSecretExactly` | internal/bfeConfig/configs/TLSConfig.go:161-187 | UpdateSecret stores a referenced secret whose pair parses, its certificate as certificate and its key as key, and no other entry changes; it fails exactly on a referenced one whose pair does not parse |
| `StoredSecrets.DeleteSecretExactly` | internal/bfeConfig/configs/TLSConfig.go:189-199 | DeleteSecret takes a referenced name out of certs and certConf, and nothing else |
| `StoredSecrets.UpdateIngressExactly` | internal/bfeConfig/configs/TLSConfig.go:105-119 | UpdateIngress associates all its secrets, and of each name stores the last one before the first bad pair |
| `BuilderSecrets.EveryReloadGivesLastPair` | internal/bfeConfig/configs/TLSConfig.go:201-240 | After any run of ConfigBuilder that misses no update and a successful reload, BFE has loaded for each configured secret the certificate and key of the last one stored under its name, each from its own file |
| `BuilderSecrets.EveryRunOfTls` | internal/bfeConfig/configBuilder.go:51-112 | TLSConfig sees exactly the secrets of updates that the server data and the clusters have taken, all deletions and all secret events |
| `Tls.DefaultStays` | internal/bfeConfig/configs/TLSConfig.go:70-85 | The default entry is never a secret's, so it is never deleted |
| `Tls.DeleteIngressIsExact` | internal/bfeConfig/configs/TLSConfig.go:121-150 | Deleting an indexed ingress keeps exactly the certs still referenced by another ingress, unchanged, and the default |
| `TLSConfig.TLSConfig.UpdateIngress` | internal/bfeConfig/configs/TLSConfig.go:105-119 | The two loops associate every secret first and store them in order, stopping at the first bad key pair |
| `TLSConfig.TLSConfig.DeleteIngress` | internal/bfeConfig/configs/TLSConfig.go:121-150 | The nested loops with the updated flag delete exactly the certs no ingress refers to, moving the version only if there was one; only files of removed certs may change |
| `TLSConfig.TLSConfig.DeleteCert` | internal/bfeConfig/configs/TLSConfig.go:152-159 | Removes entry, cert and the two files |
| `TLSConfig.TLSConfig.UpdateSecret` | internal/bfeConfig/configs/TLSConfig.go:161-187 | Stores a secret that some ingress refers to, and moves the version; a bad key pair changes nothing (StoredSecrets.UpdateSecretExactly) |
| `TLSConfig.TLSConfig.DeleteSecret` | internal/bfeConfig/configs/TLSConfig.go:189-199 | Removes a secret that some ingress refers to, and moves the version |
| `TLSConfig.TLSConfig.Reload` | internal/bfeConfig/configs/TLSConfig.go:201-240 | Dumps the certificate configuration with two files per secret and the rule file where dirty, reloads once, and records the versions on success only |
| `Reloads.ReloadIsSafe` | internal/bfeConfig/configs/serverDataConfig.go:381-416 | A Reload keeps safety whether it succeeds or fails at any write or at the request, and success makes memory, disk and BFE agree |
| `Reloads.ReloadElsewhere` | internal/bfeConfig/util/io.go:28-70 | A reload of one configuration directory does not affect the files or the loaded configuration of another |
| `Reloads.CanSucceed` | internal/bfeConfig/configs/serverDataConfig.go:381-416 | Whatever is dirty, a Reload may succeed |
| `Reloads.Bfe.DumpFile` | internal/bfeConfig/util/io.go:28-44 | A write touches one file; a failed one may leave anything in it |
| `Reloads.Bfe.ReloadBfe` | internal/bfeConfig/util/io.go:52-70 | A successful request loads the directory as it is on disk; a failed one may or may not have |

## Left out

- Controllers, reconcilers, client reads, filters, status messages, options: services, endpoints and secrets are inputs.
- The mutex: each `ConfigBuilder` method is one atomic step. `InitReload`'s ticker is the possibility of a reload at any time.
- `rule.HTTP` that is nil is the same as no paths. The source checks for nil in serverDataConfig.go:151 only; it dereferences the pointer in clusterConfig.go:95, and the controller already does in internal/controllers/ingress/netv1/ingress_controller.go:167, so what the model says of rules without paths is about an HTTP part that is there and empty. Nor is a backend without a service modelled.
- A nil annotation map is an empty one. An annotation key is one of the two router keys or another key, and the balance annotation is a field of its own.
- JSON decoding of the balance annotation: the model starts from the decoded map of maps, or from the fact that decoding failed.
- `ClusterTableConfCheck`, `route_rule_conf.Convert` and `X509KeyPair` are arbitrary verdicts. `Convert` is assumed to accept when rules are withdrawn in `BuilderFailures.EveryRunIsIntegral`, `StaleTables.EveryRunInSyncExactly`, `StaleTables.StepSyncs`, `StaleTables.EveryRunRoutesToTable`, `StaleTables.EveryRunServesRightly`, `StaleTables.EveryReloadServesRightly`, `ServerInvariants.DeleteAlwaysRenders` and `ServerInvariants.DeleteIngressKeepsIntegral`, and in the update itself in `BuilderFailures.FailsOnlyByItself` and `Admission.UpdateFailsOnlyByItself`.
- The printed condition strings and BFE's condition language: a condition is a list of primitives with a meaning on requests. `*.` before a domain means one DNS label, as test/e2e/features/conformance/host_rules.feature:72-90 has it; the printed regular expression drops the dot after the label. Hosts are taken to be in lower case.
- BFE's lookup of basic rules is not part of this model: `RouteTables.BasicTableExactly` says which entries it finds, and routing is about the first entry of the advanced table that holds.
- `NewVersion` hands out a version never used before, and each configuration has its own counter; two calls in the same instant are not modelled. A route table version drawn by a rendering that fails is not counted.
- The contents of the host table, health checks and gslb constants. A `ServerCertConf` entry is its name, of which the two file paths are functions; a configured cluster is its name.
- File paths, permissions and directories: a file is one of a few kinds, and the two files of a secret are told apart by its name, not by the printed path.
- A panic is the outcome `Crashed`, after which a run of `Builder` has no further step.
- A string stands for a Go byte string, one character a byte; nothing is said about Unicode.
- The address of a rule is a number handed out in order; rules are compared as values with that number.
- `BuilderRuns.EveryRunIsReloadSafe`, like `BuilderRuns.SuccessfulReloadWritesAll`, `StaleTables.EveryReloadServesRightly` and `BuilderSecrets.EveryReloadGivesLastPair`: assumes that BFE misses no update; `BuilderRuns.EveryRunSafeExactly` shows that this is exactly what is needed. An ingress with a path is never missed.
- `Names.ParsePortInvertsClusterName`: assumes what the Kubernetes API validates, a port given by exactly one of a positive int32 number and a valid name.
- `StaleTables.EveryRunRoutesToTable`: leaves out the default cluster, which the route table names whenever there is a rule, and the cluster table only has when its endpoints had an instance.
- `BuilderRuns.EveryRunKeepsIndexes`: assumes that ingress namespaces and names are Kubernetes names, without `_` and `/`.
- `ServiceEvents.ServiceUpdatesAreRebuild`: is about updates that complete, that is, whose target port resolves for every cluster of the service; the ingress is not updated again in between.
- `Routing.RoutingIsDeterministic`: leaves out one-character hosts beside a catch-all, for which `Routing.OneCharacterHostDependsOnOrder` shows it false.
- `DocumentedOrder.DocumentedOrderExactly`: leaves out requests whose host is a single character, which tie with the catch-all; `DocumentedOrder.DocumentedOrderFailsExactly` covers them.
