/** Service events of ClusterConfig: they agree with a rebuild, and exactly when they find their cluster. */
module ServiceEvents {
  import opened Multimaps
  import opened Kube
  import opened Names
  import opened Clusters
  import opened ClusterInvariants
  import opened ClusterRuns

  // ---------------------------------------------------------------- effect of a completed event

  /** What a completed UpdateService makes of cluster c. */
  ghost predicate ServiceWritten(s: ClusterState, s': ClusterState, service: Service, ep: Option<Endpoints>, c: string) {
    var svc := NamespacedName(service.namespace, service.name);
    && c in s.table && c in s'.table && c in s'.gslb
    && s'.table[c] == s.table[c][svc := NewSubCluster(ep, TargetPortOf(ParsePort(c), service.ports))]
    && s'.gslb[c] == map[svc := DEFAULT_WEIGHT]
  }

  ghost predicate Untouched(s: ClusterState, s': ClusterState, c: string) {
    Get(s'.table, c) == Get(s.table, c) && Get(s'.gslb, c) == Get(s.gslb, c)
  }

  lemma {:induction false} UpdateClustersEffect(s: ClusterState, defaultBackend: string, service: Service,
                                                ep: Option<Endpoints>, order: seq<string>, c: string)
    requires forall i, j :: 0 <= i < j < |order| ==> order[i] != order[j]
    requires UpdateClusters(s, defaultBackend, service, ep, order).1 == Done
    ensures var s' := UpdateClusters(s, defaultBackend, service, ep, order).0;
            && (c in order ==> ServiceWritten(s, s', service, ep, c))
            && (c !in order ==> Untouched(s, s', c))
            && s'.ingress2Cluster == s.ingress2Cluster && s'.service2Cluster == s.service2Cluster
    decreases |order|
  {
    if order != [] {
      var svc := NamespacedName(service.namespace, service.name);
      var name := order[0];
      var port := TargetPortOf(ParsePort(name), service.ports);
      var g := NewGslbCluster(service.namespace, service.name, map[]);
      assert g == map[svc := DEFAULT_WEIGHT];
      var s1 := s.(table := s.table[name := s.table[name][svc := NewSubCluster(ep, port)]], gslb := s.gslb[name := g]);
      hide NewGslbCluster; hide NamespacedName; hide NewSubCluster; hide TargetPortOf; hide ParsePort;
      UpdateClustersEffect(s1, defaultBackend, service, ep, order[1..], c);
      assert c in order <==> c == name || c in order[1..];
    }
  }

  lemma UpdateServiceEffect(s: ClusterState, defaultBackend: string, service: Service, ep: Option<Endpoints>, order: seq<string>, c: string)
    requires ServiceOrder(s, service, order) && UpdateService(s, defaultBackend, service, ep, order).1 == Done
    ensures var s' := UpdateService(s, defaultBackend, service, ep, order).0;
            && (Has(s.service2Cluster, NamespacedName(service.namespace, service.name), c) ==> ServiceWritten(s, s', service, ep, c))
            && (!Has(s.service2Cluster, NamespacedName(service.namespace, service.name), c) ==> Untouched(s, s', c))
            && s'.ingress2Cluster == s.ingress2Cluster && s'.service2Cluster == s.service2Cluster
  {
    if NamespacedName(service.namespace, service.name) in s.service2Cluster {
      UpdateClustersEffect(s, defaultBackend, service, ep, order, c);
      hide NamespacedName; hide UpdateClusters; hide ServiceWritten; hide Untouched;
      assert c in order <==> c in Values(s.service2Cluster, NamespacedName(service.namespace, service.name));
    }
  }

  // ---------------------------------------------------------------- incremental equals rebuild

  /** Cluster c of both tables is what newClusterBackend and newGslbClusterConf compute for b. */
  ghost predicate BuiltFor(s: ClusterState, ingress: Ingress, b: ServiceBackend, balance: Balance,
                           services: map<string, Service>, endpoints: map<string, Endpoints>, c: string) {
    && c in s.table && s.table[c] == NewClusterBackend(ingress.namespace, b, balance, services, endpoints)
    && c in s.gslb && s.gslb[c] == NewGslbCluster(ingress.namespace, b.name, balance)
  }

  lemma BackendOfPath(paths: seq<(string, HttpPath)>, b: ServiceBackend)
    requires BackendsOk(paths) && exists i :: 0 <= i < |paths| && paths[i].1.backend == b
    ensures var front, last := paths[..|paths| - 1], paths[|paths| - 1].1.backend;
            && BackendsOk(front) && ValidBackend(last)
            && (last == b || exists i :: 0 <= i < |front| && front[i].1.backend == b)
  {
  }

  /** The cluster of a path holds exactly what newClusterBackend and newGslbClusterConf compute for it. */
  lemma {:induction false} ApplyPathsTable(s: ClusterState, ingress: Ingress, paths: seq<(string, HttpPath)>, balance: Balance,
                                           services: map<string, Service>, endpoints: map<string, Endpoints>, b: ServiceBackend)
    requires KubeName(ingress.namespace) && KubeName(ingress.name) && BackendsOk(paths) && ValidBackend(b)
    requires exists i :: 0 <= i < |paths| && paths[i].1.backend == b
    ensures BuiltFor(ApplyPaths(s, ingress, paths, balance, services, endpoints), ingress, b, balance, services, endpoints, ClusterOf(ingress, b))
  {
    hide *;
    var front, last := paths[..|paths| - 1], paths[|paths| - 1].1.backend;
    BackendOfPath(paths, b);
    if ClusterOf(ingress, last) == ClusterOf(ingress, b) {
      SameClusterOf(ingress, last, b);
      ApplyPathHere(s, ingress, paths, balance, services, endpoints);
    } else {
      ApplyPathsTable(s, ingress, front, balance, services, endpoints, b);
      ApplyPathElsewhere(s, ingress, paths, balance, services, endpoints, b, ClusterOf(ingress, b));
    }
  }

  lemma SameClusterOf(ingress: Ingress, b: ServiceBackend, b': ServiceBackend)
    requires KubeName(ingress.namespace) && KubeName(ingress.name) && ValidBackend(b) && ValidBackend(b')
    requires ClusterOf(ingress, b) == ClusterOf(ingress, b')
    ensures b == b'
  {
    ClusterNameInjective(ingress.namespace, ingress.name, b, ingress.namespace, ingress.name, b');
  }

  lemma ApplyPathHere(s: ClusterState, ingress: Ingress, paths: seq<(string, HttpPath)>, balance: Balance,
                      services: map<string, Service>, endpoints: map<string, Endpoints>)
    requires paths != []
    ensures var b := paths[|paths| - 1].1.backend;
            BuiltFor(ApplyPaths(s, ingress, paths, balance, services, endpoints), ingress, b, balance, services, endpoints, ClusterOf(ingress, b))
  {
    hide NewClusterBackend; hide NewGslbCluster; hide NamespacedName; hide ClusterName; hide PutAll; hide Put;
  }

  lemma ApplyPathElsewhere(s: ClusterState, ingress: Ingress, paths: seq<(string, HttpPath)>, balance: Balance,
                           services: map<string, Service>, endpoints: map<string, Endpoints>, b: ServiceBackend, c: string)
    requires paths != [] && c != ClusterOf(ingress, paths[|paths| - 1].1.backend)
    requires BuiltFor(ApplyPaths(s, ingress, paths[..|paths| - 1], balance, services, endpoints), ingress, b, balance, services, endpoints, c)
    ensures BuiltFor(ApplyPaths(s, ingress, paths, balance, services, endpoints), ingress, b, balance, services, endpoints, c)
  {
    hide NewClusterBackend; hide NewGslbCluster; hide NamespacedName; hide ClusterName; hide PutAll; hide Put;
  }

  lemma AddDefaultElsewhere(s: ClusterState, defaultBackend: string, ep: Option<Endpoints>, c: string)
    requires c != DefaultClusterName(defaultBackend)
    ensures Untouched(s, AddDefaultBackend(s, defaultBackend, ep), c)
    ensures forall svc :: Has(AddDefaultBackend(s, defaultBackend, ep).service2Cluster, svc, c) <==> Has(s.service2Cluster, svc, c)
  {
  }

  /** An accepted ingress update, seen from the cluster of one of its paths. */
  lemma UpdateIngressAt(s: ClusterState, defaultBackend: string, ingress: Ingress, balance: Balance,
                        services: map<string, Service>, endpoints: map<string, Endpoints>, b: ServiceBackend)
    requires NamesOk(ingress) && BalanceOk(balance) && ingress.rules != []
    requires exists i :: 0 <= i < |HostPaths(ingress.rules)| && HostPaths(ingress.rules)[i].1.backend == b
    ensures var s' := UpdateIngress(s, defaultBackend, ingress, balance, services, endpoints, true).0; var c := ClusterOf(ingress, b);
            && c in s'.table && s'.table[c] == NewClusterBackend(ingress.namespace, b, balance, services, endpoints)
            && c in s'.gslb && s'.gslb[c] == NewGslbCluster(ingress.namespace, b.name, balance)
            && forall svc :: Has(s'.service2Cluster, svc, c) <==>
                 Has(s.service2Cluster, svc, c) || svc in ServicesOf(ingress.namespace, b.name, balance)
  {
    var paths, c := HostPaths(ingress.rules), ClusterOf(ingress, b);
    PathsOk(ingress);
    ApplyPathsCluster(s, ingress, paths, balance, services, endpoints, b);
    OwnerOfClusterName(ingress.namespace, ingress.name, b, defaultBackend);
    AddDefaultElsewhere(ApplyPaths(s, ingress, paths, balance, services, endpoints), defaultBackend, Get(endpoints, defaultBackend), c);
    hide ApplyPaths; hide AddDefaultBackend; hide HostPaths; hide ClusterOf; hide DefaultClusterName; hide NewClusterBackend;
    hide NewGslbCluster; hide ServicesOf; hide Has; hide NamesOk; hide BackendsOk; hide BalanceOk; hide OwnerOf; hide DeleteIngress;
  }

  lemma ApplyPathsCluster(s: ClusterState, ingress: Ingress, paths: seq<(string, HttpPath)>, balance: Balance,
                          services: map<string, Service>, endpoints: map<string, Endpoints>, b: ServiceBackend)
    requires KubeName(ingress.namespace) && KubeName(ingress.name) && BackendsOk(paths) && BalanceOk(balance)
    requires exists i :: 0 <= i < |paths| && paths[i].1.backend == b
    ensures var s' := ApplyPaths(s, ingress, paths, balance, services, endpoints); var c := ClusterOf(ingress, b);
            && c in s'.table && s'.table[c] == NewClusterBackend(ingress.namespace, b, balance, services, endpoints)
            && c in s'.gslb && s'.gslb[c] == NewGslbCluster(ingress.namespace, b.name, balance)
            && forall svc :: Has(s'.service2Cluster, svc, c) <==>
                 Has(s.service2Cluster, svc, c) || svc in ServicesOf(ingress.namespace, b.name, balance)
  {
    hide ApplyPaths; hide NewClusterBackend; hide NewGslbCluster; hide ServicesOf; hide Has; hide BalanceOk;
    var i :| 0 <= i < |paths| && paths[i].1.backend == b;
    assert ValidBackend(b);
    ApplyPathsTable(s, ingress, paths, balance, services, endpoints, b);
    var c := ClusterOf(ingress, b);
    var svcs := WrittenServices(ingress, paths, balance, c);
    assert WritesAt(ingress, b, balance, c, ServicesOf(ingress.namespace, b.name, balance));
    assert Writes(ingress, paths, balance, c, ServicesOf(ingress.namespace, b.name, balance));
    ApplyPathsAt(s, ingress, paths, balance, services, endpoints, c, svcs);
  }

  function ServiceName(service: Service): string {
    NamespacedName(service.namespace, service.name)
  }

  /** What newClusterBackend computes for service t of backend b. */
  function EntryFor(b: ServiceBackend, services: map<string, Service>, endpoints: map<string, Endpoints>, t: string): SubCluster {
    NewSubCluster(Get(endpoints, t), GetTargetPort(b.port, Get(services, t)))
  }

  function WithEndpoints(endpoints: map<string, Endpoints>, t: string, ep: Option<Endpoints>): map<string, Endpoints> {
    match ep case Some(e) => endpoints[t := e] case None => endpoints - {t}
  }

  /** In any state: a completed UpdateService of a service that leads to the cluster of b leaves the service's entry as
      newClusterBackend computes it from the new service and endpoints, whatever else it is given, and every other entry alone. */
  lemma ServiceEntryIsRebuilt(s: ClusterState, defaultBackend: string, ingress: Ingress, b: ServiceBackend, balance: Balance,
                              services: map<string, Service>, endpoints: map<string, Endpoints>,
                              service: Service, ep: Option<Endpoints>, order: seq<string>)
    requires ValidBackend(b) && ServiceOrder(s, service, order) && UpdateService(s, defaultBackend, service, ep, order).1 == Done
    requires Has(s.service2Cluster, ServiceName(service), ClusterOf(ingress, b))
    ensures var svc, c := ServiceName(service), ClusterOf(ingress, b);
            var s' := UpdateService(s, defaultBackend, service, ep, order).0;
            var rebuilt := NewClusterBackend(ingress.namespace, b, balance, services[svc := service], WithEndpoints(endpoints, svc, ep));
            && c in s.table && c in s'.table && svc in s'.table[c] && s'.table[c] == s.table[c][svc := s'.table[c][svc]]
            && s'.table[c][svc] == EntryFor(b, services[svc := service], WithEndpoints(endpoints, svc, ep), svc)
            && (svc in ServicesOf(ingress.namespace, b.name, balance) ==> svc in rebuilt && s'.table[c][svc] == rebuilt[svc])
            && c in s'.gslb && s'.gslb[c] == map[svc := DEFAULT_WEIGHT]
  {
    hide UpdateService; hide ServiceOrder; hide ServicesOf; hide NewSubCluster; hide TargetPortOf; hide ParsePort; hide ClusterName;
    hide NamespacedName; hide Has;
    UpdateServiceEffect(s, defaultBackend, service, ep, order, ClusterOf(ingress, b));
    ParsePortInvertsClusterName(NamespacedName(ingress.namespace, ingress.name), b);
  }

  /** The weights of that service alone are those of an ingress update exactly when the balance does not split the backend, or
      leaves it to this service with the default weight. */
  lemma WeightsAgreeExactly(ns: string, b: ServiceBackend, balance: Balance, svc: string)
    requires svc in ServicesOf(ns, b.name, balance)
    ensures NewGslbCluster(ns, b.name, balance) == map[svc := DEFAULT_WEIGHT] <==>
            b.name !in balance || balance[b.name] == map[LocalName(ns, svc) := DEFAULT_WEIGHT]
  {
    if b.name in balance {
      var weights, g := balance[b.name], NewGslbCluster(ns, b.name, balance);
      forall n | n in weights
        ensures LocalName(ns, NamespacedName(ns, n)) == n && NamespacedName(ns, n) in g && g[NamespacedName(ns, n)] == weights[n]
      {
        LocalNameInverts(ns, n);
      }
      hide NamespacedName; hide LocalName;
      if g == map[svc := DEFAULT_WEIGHT] {
        forall n | n in weights
          ensures n == LocalName(ns, svc) && weights[n] == DEFAULT_WEIGHT
        {
          assert NamespacedName(ns, n) == svc;
        }
        assert weights == map[LocalName(ns, svc) := DEFAULT_WEIGHT];
      }
    }
  }

  // ---------------------------------------------------------------- any number of service updates

  datatype ServiceUpdate = ServiceUpdate(service: Service, ep: Option<Endpoints>, order: seq<string>)

  function AfterUpdates(s: ClusterState, defaultBackend: string, updates: seq<ServiceUpdate>): ClusterState {
    if updates == [] then s else
      var u := updates[|updates| - 1];
      UpdateService(AfterUpdates(s, defaultBackend, updates[..|updates| - 1]), defaultBackend, u.service, u.ep, u.order).0
  }

  ghost predicate AllComplete(s: ClusterState, defaultBackend: string, updates: seq<ServiceUpdate>) {
    updates == [] ||
    var front, u := updates[..|updates| - 1], updates[|updates| - 1];
    var before := AfterUpdates(s, defaultBackend, front);
    && AllComplete(s, defaultBackend, front)
    && ServiceOrder(before, u.service, u.order) && UpdateService(before, defaultBackend, u.service, u.ep, u.order).1 == Done
  }

  function LatestServices(services: map<string, Service>, updates: seq<ServiceUpdate>): map<string, Service> {
    if updates == [] then services else
      var u := updates[|updates| - 1];
      LatestServices(services, updates[..|updates| - 1])[ServiceName(u.service) := u.service]
  }

  function LatestEndpoints(endpoints: map<string, Endpoints>, updates: seq<ServiceUpdate>): map<string, Endpoints> {
    if updates == [] then endpoints else
      var u := updates[|updates| - 1];
      WithEndpoints(LatestEndpoints(endpoints, updates[..|updates| - 1]), ServiceName(u.service), u.ep)
  }

  /** One of the updates is of service t, which leads to cluster c. */
  predicate Hit(s: ClusterState, c: string, updates: seq<ServiceUpdate>, t: string) {
    updates != [] &&
    (Hit(s, c, updates[..|updates| - 1], t) || (ServiceName(updates[|updates| - 1].service) == t && Has(s.service2Cluster, t, c)))
  }

  /** The service that was last updated among those that lead to cluster c. */
  function LastHit(s: ClusterState, c: string, updates: seq<ServiceUpdate>): Option<string> {
    if updates == [] then None else
      var svc := ServiceName(updates[|updates| - 1].service);
      if Has(s.service2Cluster, svc, c) then Some(svc) else LastHit(s, c, updates[..|updates| - 1])
  }

  /** Every service of the backend has its entry in cluster c as newClusterBackend computes it. */
  ghost predicate UpToDate(s: ClusterState, ns: string, b: ServiceBackend, balance: Balance,
                           services: map<string, Service>, endpoints: map<string, Endpoints>, c: string) {
    c in s.table && forall t :: t in ServicesOf(ns, b.name, balance) ==> t in s.table[c] && s.table[c][t] == EntryFor(b, services, endpoints, t)
  }

  /** The services and weights of cluster c after the updates. */
  ghost predicate HitExactly(s: ClusterState, s': ClusterState, c: string, updates: seq<ServiceUpdate>) {
    && s'.service2Cluster == s.service2Cluster && c in s.table && c in s'.table
    && (forall t :: t in s'.table[c] <==> t in s.table[c] || Hit(s, c, updates, t))
    && Get(s'.gslb, c) == match LastHit(s, c, updates) case None => Get(s.gslb, c) case Some(t) => Some(map[t := DEFAULT_WEIGHT])
  }

  /** Incremental equals rebuild, from any state in which the cluster of b is up to date: after any sequence of completed service
      updates it is up to date with the latest services and endpoints, and only services that lead there have been added. */
  lemma {:induction false} ServiceUpdatesKeepUpToDate(s: ClusterState, defaultBackend: string, ingress: Ingress, b: ServiceBackend, balance: Balance,
                                                      services: map<string, Service>, endpoints: map<string, Endpoints>, updates: seq<ServiceUpdate>)
    requires Inv(s, defaultBackend) && ValidBackend(b) && AllComplete(s, defaultBackend, updates)
    requires UpToDate(s, ingress.namespace, b, balance, services, endpoints, ClusterOf(ingress, b))
    ensures var s' := AfterUpdates(s, defaultBackend, updates); var c := ClusterOf(ingress, b);
            && Inv(s', defaultBackend) && HitExactly(s, s', c, updates)
            && UpToDate(s', ingress.namespace, b, balance, LatestServices(services, updates), LatestEndpoints(endpoints, updates), c)
  {
    hide Inv; hide ValidBackend; hide ClusterOf; hide UpdateService; hide ServiceOrder; hide HitExactly; hide UpToDate;
    var c := ClusterOf(ingress, b);
    if updates == [] {
      NothingHit(s, ingress.namespace, b, balance, services, endpoints, c);
      return;
    }
    var front, u := updates[..|updates| - 1], updates[|updates| - 1];
    var before := AfterUpdates(s, defaultBackend, front);
    ServiceUpdatesKeepUpToDate(s, defaultBackend, ingress, b, balance, services, endpoints, front);
    UpdateServiceKeepsInv(before, defaultBackend, u.service, u.ep, u.order);
    OneUpdateMore(s, before, defaultBackend, ingress, b, balance, LatestServices(services, front), LatestEndpoints(endpoints, front), updates);
  }

  lemma NothingHit(s: ClusterState, ns: string, b: ServiceBackend, balance: Balance,
                   services: map<string, Service>, endpoints: map<string, Endpoints>, c: string)
    requires UpToDate(s, ns, b, balance, services, endpoints, c)
    ensures HitExactly(s, s, c, [])
  {
  }

  /** What one service update does to cluster c: the one entry and the weights if the service leads there, otherwise nothing. */
  ghost predicate Touches(s: ClusterState, s': ClusterState, c: string, svc: string, entry: SubCluster) {
    && s'.service2Cluster == s.service2Cluster
    && if Has(s.service2Cluster, svc, c)
       then c in s.table && c in s'.table && s'.table[c] == s.table[c][svc := entry] && Get(s'.gslb, c) == Some(map[svc := DEFAULT_WEIGHT])
       else Untouched(s, s', c)
  }

  lemma UpdateTouches(s: ClusterState, defaultBackend: string, ingress: Ingress, b: ServiceBackend, balance: Balance,
                      services: map<string, Service>, endpoints: map<string, Endpoints>, u: ServiceUpdate)
    requires ValidBackend(b) && ServiceOrder(s, u.service, u.order) && UpdateService(s, defaultBackend, u.service, u.ep, u.order).1 == Done
    ensures var svc := ServiceName(u.service);
            Touches(s, UpdateService(s, defaultBackend, u.service, u.ep, u.order).0, ClusterOf(ingress, b), svc,
                    EntryFor(b, services[svc := u.service], WithEndpoints(endpoints, svc, u.ep), svc))
  {
    hide ValidBackend; hide UpdateService; hide ServiceOrder; hide ServiceWritten; hide EntryFor; hide WithEndpoints; hide ClusterOf; hide NamespacedName;
    hide ServicesOf; hide NewClusterBackend; hide Has;
    UpdateServiceEffect(s, defaultBackend, u.service, u.ep, u.order, ClusterOf(ingress, b));
    if Has(s.service2Cluster, ServiceName(u.service), ClusterOf(ingress, b)) {
      ServiceEntryIsRebuilt(s, defaultBackend, ingress, b, balance, services, endpoints, u.service, u.ep, u.order);
    }
  }

  lemma HitMore(s: ClusterState, before: ClusterState, after: ClusterState, c: string, updates: seq<ServiceUpdate>, entry: SubCluster)
    requires updates != [] && HitExactly(s, before, c, updates[..|updates| - 1])
    requires Touches(before, after, c, ServiceName(updates[|updates| - 1].service), entry)
    ensures HitExactly(s, after, c, updates)
  {
    hide Has; hide ServiceName;
  }

  lemma UpToDateMore(before: ClusterState, after: ClusterState, ns: string, b: ServiceBackend, balance: Balance, services: map<string, Service>,
                     endpoints: map<string, Endpoints>, c: string, svc: string, service: Service, ep: Option<Endpoints>)
    requires Covered(before.table, before.service2Cluster) && UpToDate(before, ns, b, balance, services, endpoints, c)
    requires Touches(before, after, c, svc, EntryFor(b, services[svc := service], WithEndpoints(endpoints, svc, ep), svc))
    ensures UpToDate(after, ns, b, balance, services[svc := service], WithEndpoints(endpoints, svc, ep), c)
  {
    hide Has; hide NewSubCluster; hide ServicesOf; hide GetTargetPort;
  }

  lemma OneUpdateMore(s: ClusterState, before: ClusterState, defaultBackend: string, ingress: Ingress, b: ServiceBackend, balance: Balance,
                      services: map<string, Service>, endpoints: map<string, Endpoints>, updates: seq<ServiceUpdate>)
    requires updates != [] && Inv(before, defaultBackend) && ValidBackend(b)
    requires var u := updates[|updates| - 1];
             ServiceOrder(before, u.service, u.order) && UpdateService(before, defaultBackend, u.service, u.ep, u.order).1 == Done
    requires HitExactly(s, before, ClusterOf(ingress, b), updates[..|updates| - 1])
    requires UpToDate(before, ingress.namespace, b, balance, services, endpoints, ClusterOf(ingress, b))
    ensures var u := updates[|updates| - 1]; var svc := ServiceName(u.service);
            var after := UpdateService(before, defaultBackend, u.service, u.ep, u.order).0;
            && HitExactly(s, after, ClusterOf(ingress, b), updates)
            && UpToDate(after, ingress.namespace, b, balance, services[svc := u.service], WithEndpoints(endpoints, svc, u.ep), ClusterOf(ingress, b))
  {
    hide ValidBackend; hide UpdateService; hide ServiceOrder; hide HitExactly; hide UpToDate; hide Touches; hide EntryFor; hide WithEndpoints;
    hide ClusterOf; hide Covered; hide Balanced; hide Owned; hide ServiceName;
    var u, c := updates[|updates| - 1], ClusterOf(ingress, b);
    var svc := ServiceName(u.service);
    var after := UpdateService(before, defaultBackend, u.service, u.ep, u.order).0;
    UpdateTouches(before, defaultBackend, ingress, b, balance, services, endpoints, u);
    HitMore(s, before, after, c, updates, EntryFor(b, services[svc := u.service], WithEndpoints(endpoints, svc, u.ep), svc));
    UpToDateMore(before, after, ingress.namespace, b, balance, services, endpoints, c, svc, u.service, u.ep);
  }

  /** A cluster that is up to date is what newClusterBackend builds, except for further services. */
  lemma UpToDateIsBuilt(s: ClusterState, ns: string, b: ServiceBackend, balance: Balance,
                        services: map<string, Service>, endpoints: map<string, Endpoints>, c: string)
    requires UpToDate(s, ns, b, balance, services, endpoints, c)
    ensures var built, svcs := NewClusterBackend(ns, b, balance, services, endpoints), ServicesOf(ns, b.name, balance);
            && built.Keys == svcs && (forall t :: t in svcs ==> t in s.table[c] && s.table[c][t] == built[t])
            && (s.table[c] == built <==> forall t :: t in s.table[c] ==> t in svcs)
  {
    hide ServicesOf; hide NewSubCluster; hide GetTargetPort; hide Get;
  }

  lemma BuiltIsUpToDate(s: ClusterState, ns: string, b: ServiceBackend, balance: Balance,
                        services: map<string, Service>, endpoints: map<string, Endpoints>, c: string)
    requires c in s.table && s.table[c] == NewClusterBackend(ns, b, balance, services, endpoints)
    ensures UpToDate(s, ns, b, balance, services, endpoints, c)
  {
    hide ServicesOf; hide NewSubCluster; hide GetTargetPort; hide Get;
  }

  /** From an accepted update of the ingress: after any sequence of completed service updates every service of every cluster of
      the ingress is as an ingress update with the latest services and endpoints would leave it. The whole cluster is too, exactly
      when no service updated led there by a stale entry; the weights are those of the last service updated, if there was one. */
  lemma ServiceUpdatesAreRebuild(s: ClusterState, defaultBackend: string, ingress: Ingress, balance: Balance,
                                 services: map<string, Service>, endpoints: map<string, Endpoints>, b: ServiceBackend, updates: seq<ServiceUpdate>)
    requires Inv(s, defaultBackend) && NamesOk(ingress) && BalanceOk(balance) && ingress.rules != []
    requires exists i :: 0 <= i < |HostPaths(ingress.rules)| && HostPaths(ingress.rules)[i].1.backend == b
    requires AllComplete(UpdateIngress(s, defaultBackend, ingress, balance, services, endpoints, true).0, defaultBackend, updates)
    ensures var c := ClusterOf(ingress, b); var svcs := ServicesOf(ingress.namespace, b.name, balance);
            var s1 := UpdateIngress(s, defaultBackend, ingress, balance, services, endpoints, true).0;
            var s2 := AfterUpdates(s1, defaultBackend, updates);
            var r := UpdateIngress(s, defaultBackend, ingress, balance, LatestServices(services, updates), LatestEndpoints(endpoints, updates), true).0;
            && c in s2.table && c in r.table && c in r.gslb
            && (forall t :: t in svcs ==> t in s2.table[c] && t in r.table[c] && s2.table[c][t] == r.table[c][t])
            && (s2.table[c] == r.table[c] <==> forall t :: Hit(s, c, updates, t) ==> t in svcs)
            && Get(s2.gslb, c) == Some(match LastHit(s1, c, updates) case None => r.gslb[c] case Some(t) => map[t := DEFAULT_WEIGHT])
  {
    hide UpdateIngress; hide NamesOk; hide HostPaths; hide ServicesOf; hide NewClusterBackend; hide NewGslbCluster; hide Inv; hide BalanceOk; hide ClusterOf;
    hide Has; hide AfterUpdates; hide AllComplete; hide LatestServices; hide LatestEndpoints; hide UpToDate; hide Hit; hide LastHit; hide ValidBackend; hide KubeName;
    hide BackendsOk;
    var c, svcs := ClusterOf(ingress, b), ServicesOf(ingress.namespace, b.name, balance);
    var services', endpoints' := LatestServices(services, updates), LatestEndpoints(endpoints, updates);
    var s1 := UpdateIngress(s, defaultBackend, ingress, balance, services, endpoints, true).0;
    var s2 := AfterUpdates(s1, defaultBackend, updates);
    UpdateIngressAt(s, defaultBackend, ingress, balance, services, endpoints, b);
    UpdateIngressAt(s, defaultBackend, ingress, balance, services', endpoints', b);
    BackendIsValid(ingress, b);
    UpdateIngressKeepsInv(s, defaultBackend, ingress, balance, services, endpoints, true);
    BuiltIsUpToDate(s1, ingress.namespace, b, balance, services, endpoints, c);
    UpToDateIsBuilt(s1, ingress.namespace, b, balance, services, endpoints, c);
    ServiceUpdatesKeepUpToDate(s1, defaultBackend, ingress, b, balance, services, endpoints, updates);
    UpToDateIsBuilt(s2, ingress.namespace, b, balance, services', endpoints', c);
    forall t
      ensures t in s2.table[c] <==> t in svcs || Hit(s, c, updates, t)
    {
      HitBefore(s, s1, c, updates, t, svcs);
    }
  }

  lemma BackendIsValid(ingress: Ingress, b: ServiceBackend)
    requires NamesOk(ingress) && exists i :: 0 <= i < |HostPaths(ingress.rules)| && HostPaths(ingress.rules)[i].1.backend == b
    ensures ValidBackend(b) && KubeName(ingress.namespace) && KubeName(ingress.name)
  {
    hide HostPaths; hide ValidBackend;
    PathsOk(ingress);
  }

  lemma {:induction false} HitBefore(s: ClusterState, s1: ClusterState, c: string, updates: seq<ServiceUpdate>, t: string, svcs: set<string>)
    requires forall svc :: Has(s1.service2Cluster, svc, c) <==> Has(s.service2Cluster, svc, c) || svc in svcs
    ensures Hit(s1, c, updates, t) ==> Hit(s, c, updates, t) || t in svcs
    ensures Hit(s, c, updates, t) ==> Hit(s1, c, updates, t)
  {
    if updates != [] {
      HitBefore(s, s1, c, updates[..|updates| - 1], t, svcs);
    }
  }

  // ---------------------------------------------------------------- the nil map

  /** Every entry of the service index leads to a cluster of the table. */
  ghost predicate NoDangling(s: ClusterState) {
    forall ns, n, c :: !Dangling(s, ns, n, c)
  }

  ghost predicate Dangling(s: ClusterState, ns: string, n: string, c: string) {
    Has(s.service2Cluster, NamespacedName(ns, n), c) && c !in s.table
  }

  /** No service event, in no order, writes into a cluster the table does not have. */
  ghost predicate NeverCrashes(s: ClusterState, defaultBackend: string) {
    forall service, ep, order :: ServiceOrder(s, service, order) ==>
      UpdateService(s, defaultBackend, service, ep, order).1 != Crashed
  }

  lemma {:induction false} ClustersPresent(s: ClusterState, defaultBackend: string, service: Service,
                                           ep: Option<Endpoints>, order: seq<string>)
    requires forall c :: c in order ==> c in s.table
    ensures UpdateClusters(s, defaultBackend, service, ep, order).1 != Crashed
    decreases |order|
  {
    if order != [] {
      var svc := NamespacedName(service.namespace, service.name);
      var name := order[0];
      var port := TargetPortOf(ParsePort(name), service.ports);
      var s1 := s.(table := s.table[name := s.table[name][svc := NewSubCluster(ep, port)]],
                   gslb := s.gslb[name := NewGslbCluster(service.namespace, service.name, map[])]);
      ClustersPresent(s1, defaultBackend, service, ep, order[1..]);
    }
  }

  /** A service with a port that fits any wanted port. */
  function FittingService(namespace: string, name: string, wanted: BackendPort): Service {
    Service(namespace, name, [ServicePort(if wanted.name == "" then "p" else wanted.name, wanted.number, NO_PORT)])
  }

  lemma DanglingCrashes(s: ClusterState, defaultBackend: string, ns: string, n: string, c: string)
    requires Has(s.service2Cluster, NamespacedName(ns, n), c) && c !in s.table
    ensures !NeverCrashes(s, defaultBackend)
  {
    hide ParsePort; hide NamespacedName;
    var service := FittingService(ns, n, ParsePort(c));
    var order := [c] + Listing(Values(s.service2Cluster, NamespacedName(ns, n)) - {c});
    assert ServiceOrder(s, service, order);
    assert TargetPortOf(ParsePort(c), service.ports) != NO_PORT;
    assert UpdateService(s, defaultBackend, service, None, order).1 == Crashed;
  }

  /** The write at line 319 is safe for every service event exactly when no index entry dangles. */
  lemma CrashFreeExactly(s: ClusterState, defaultBackend: string)
    ensures NeverCrashes(s, defaultBackend) <==> NoDangling(s)
  {
    if NoDangling(s) {
      forall service, ep, order | ServiceOrder(s, service, order)
        ensures UpdateService(s, defaultBackend, service, ep, order).1 != Crashed
      {
        forall c | c in order
          ensures c in s.table
        {
          assert Has(s.service2Cluster, NamespacedName(service.namespace, service.name), c);
          assert !Dangling(s, service.namespace, service.name, c);
        }
        ClustersPresent(s, defaultBackend, service, ep, order);
      }
    } else {
      var ns, n, c :| Dangling(s, ns, n, c);
      DanglingCrashes(s, defaultBackend, ns, n, c);
    }
  }

  // ---------------------------------------------------------------- runs without a crash

  /** service2Cluster is the exact inverse of the table. */
  ghost predicate Tidy(s: ClusterState) {
    forall svc, c :: Has(s.service2Cluster, svc, c) <==> c in s.table && svc in s.table[c]
  }

  /** The update takes no service away from a cluster that exists. */
  ghost predicate KeepsServices(s: ClusterState, ingress: Ingress, balance: Balance) {
    forall c, svcs :: Writes(ingress, HostPaths(ingress.rules), balance, c, svcs) && c in s.table ==> s.table[c].Keys <= svcs
  }

  datatype Event =
    | IngressUpdated(ingress: Ingress, balance: Balance, services: map<string, Service>, endpoints: map<string, Endpoints>, checkOk: bool)
    | IngressDeleted(namespace: string, name: string)
    | ServiceUpdated(service: Service, ep: Option<Endpoints>, order: seq<string>)
    | ServiceDeleted(namespace: string, name: string)

  function Step(s: ClusterState, defaultBackend: string, e: Event): (ClusterState, Outcome) {
    match e
    case IngressUpdated(ingress, balance, services, endpoints, checkOk) =>
      var (s', ok) := UpdateIngress(s, defaultBackend, ingress, balance, services, endpoints, checkOk);
      (s', if ok then Done else Failed)
    case IngressDeleted(ns, n) => (DeleteIngress(s, defaultBackend, ns, n), Done)
    case ServiceUpdated(service, ep, order) => UpdateService(s, defaultBackend, service, ep, order)
    case ServiceDeleted(ns, n) => (DeleteService(s, ns, n), Done)
  }

  ghost predicate Possible(s: ClusterState, e: Event) {
    match e
    case IngressUpdated(ingress, balance, _, _, _) => NamesOk(ingress) && BalanceOk(balance)
    case ServiceUpdated(service, _, order) => ServiceOrder(s, service, order)
    case IngressDeleted(_, _) => true
    case ServiceDeleted(_, _) => true
  }

  /** No service is deleted, directly or by an update that cannot find its port, and no cluster shrinks. */
  ghost predicate Gentle(s: ClusterState, defaultBackend: string, e: Event) {
    match e
    case IngressUpdated(ingress, balance, _, _, _) => KeepsServices(s, ingress, balance)
    case ServiceUpdated(_, _, _) => Step(s, defaultBackend, e).1 != Failed
    case IngressDeleted(_, _) => true
    case ServiceDeleted(_, _) => false
  }

  lemma ApplyPathsTidy(s: ClusterState, ingress: Ingress, balance: Balance, services: map<string, Service>, endpoints: map<string, Endpoints>)
    requires Tidy(s) && NamesOk(ingress) && BalanceOk(balance) && KeepsServices(s, ingress, balance)
    ensures Tidy(ApplyPaths(s, ingress, HostPaths(ingress.rules), balance, services, endpoints))
  {
    var paths := HostPaths(ingress.rules);
    var s' := ApplyPaths(s, ingress, paths, balance, services, endpoints);
    PathsOk(ingress);
    hide ApplyPaths; hide Writes; hide HostPaths; hide NamesOk; hide BackendsOk; hide BalanceOk; hide Has; hide ClustersOf;
    forall svc, c
      ensures Has(s'.service2Cluster, svc, c) <==> c in s'.table && svc in s'.table[c]
    {
      var svcs := WrittenServices(ingress, paths, balance, c);
      ApplyPathsAt(s, ingress, paths, balance, services, endpoints, c, svcs);
      assert Has(s.service2Cluster, svc, c) <==> c in s.table && svc in s.table[c];
    }
  }

  lemma AddDefaultTidy(s: ClusterState, defaultBackend: string, ep: Option<Endpoints>)
    requires Tidy(s)
    ensures Tidy(AddDefaultBackend(s, defaultBackend, ep))
  {
    hide DefaultClusterName; hide NewSubCluster; hide Put; hide Has;
    var s' := AddDefaultBackend(s, defaultBackend, ep);
    var d := DefaultClusterName(defaultBackend);
    forall svc, c
      ensures Has(s'.service2Cluster, svc, c) <==> c in s'.table && svc in s'.table[c]
    {
      PutHas(s.service2Cluster, defaultBackend, d, svc, c);
      assert Has(s.service2Cluster, svc, c) <==> c in s.table && svc in s.table[c];
    }
  }

  lemma DropTidy(s: ClusterState, cs: set<string>)
    requires Tidy(s)
    ensures Tidy(DropClusters(s, cs))
  {
    hide Has; hide WithoutListed;
    forall svc, c
      ensures Has(WithoutListed(s.service2Cluster, s.table, cs), svc, c) <==> c in s.table - cs && svc in s.table[c]
    {
      WithoutListedHas(s.service2Cluster, s.table, cs, svc, c);
      assert Has(s.service2Cluster, svc, c) <==> c in s.table && svc in s.table[c];
    }
  }

  lemma DelDefaultTidy(s: ClusterState, defaultBackend: string)
    requires Tidy(s)
    requires DefaultClusterName(defaultBackend) in s.table ==> s.table[DefaultClusterName(defaultBackend)].Keys <= {defaultBackend}
    ensures Tidy(DelDefaultBackend(s, defaultBackend))
  {
    hide Has; hide Remove; hide DefaultClusterName;
    var d := DefaultClusterName(defaultBackend);
    forall svc, c
      ensures Has(Remove(s.service2Cluster, defaultBackend, d), svc, c) <==> c in s.table - {d} && svc in s.table[c]
    {
      RemoveHas(s.service2Cluster, defaultBackend, d, svc, c);
      assert Has(s.service2Cluster, svc, c) <==> c in s.table && svc in s.table[c];
    }
  }

  lemma DeleteIngressTidy(s: ClusterState, defaultBackend: string, namespace: string, name: string)
    requires Tidy(s) && Inv(s, defaultBackend)
    requires DefaultClusterName(defaultBackend) in s.table ==> s.table[DefaultClusterName(defaultBackend)].Keys <= {defaultBackend}
    ensures Tidy(DeleteIngress(s, defaultBackend, namespace, name))
  {
    hide Inv; hide WithoutListed; hide Has; hide NamespacedName; hide DefaultClusterName;
    var i := NamespacedName(namespace, name);
    if i in s.ingress2Cluster {
      DropTidy(s, s.ingress2Cluster[i]);
      var s1 := DropClusters(s, s.ingress2Cluster[i]).(ingress2Cluster := RemoveKey(s.ingress2Cluster, i));
      assert Tidy(s1);
      hide DropClusters;
      if DefaultClusterName(defaultBackend) !in s1.table || s1.table[DefaultClusterName(defaultBackend)].Keys <= {defaultBackend} {
        DelDefaultTidy(s1, defaultBackend);
      }
    }
  }

  lemma UpdateServiceTidy(s: ClusterState, defaultBackend: string, service: Service, ep: Option<Endpoints>, order: seq<string>)
    requires Tidy(s) && ServiceOrder(s, service, order) && UpdateService(s, defaultBackend, service, ep, order).1 == Done
    ensures Tidy(UpdateService(s, defaultBackend, service, ep, order).0)
  {
    var s' := UpdateService(s, defaultBackend, service, ep, order).0;
    var key := NamespacedName(service.namespace, service.name);
    forall svc, c
      ensures Has(s'.service2Cluster, svc, c) <==> c in s'.table && svc in s'.table[c]
    {
      UpdateServiceEffect(s, defaultBackend, service, ep, order, c);
      hide UpdateService; hide ServiceOrder; hide NamespacedName; hide Has;
      assert Has(s.service2Cluster, svc, c) <==> c in s.table && svc in s.table[c];
      assert Has(s.service2Cluster, key, c) <==> c in s.table && key in s.table[c];
    }
  }

  /** The default cluster serves the default backend only. */
  ghost predicate DefaultOnly(s: ClusterState, defaultBackend: string) {
    DefaultClusterName(defaultBackend) in s.table ==> s.table[DefaultClusterName(defaultBackend)].Keys <= {defaultBackend}
  }

  lemma DefaultOnlyKept(s: ClusterState, defaultBackend: string, e: Event)
    requires Possible(s, e) && Inv(s, defaultBackend) && Tidy(s) && DefaultOnly(s, defaultBackend) && Gentle(s, defaultBackend, e)
    requires Step(s, defaultBackend, e).1 != Crashed
    ensures DefaultOnly(Step(s, defaultBackend, e).0, defaultBackend)
  {
    hide Inv; hide Tidy; hide DefaultOnly; hide KeepsServices; hide NamesOk; hide BalanceOk; hide UpdateService; hide DeleteIngress;
    match e
    case IngressUpdated(ingress, balance, services, endpoints, checkOk) =>
      hide HostPaths; hide ApplyPaths; hide AddDefaultBackend;
      DefaultAfterPaths(s, defaultBackend, ingress, balance, services, endpoints);
      var applied := ApplyPaths(s, ingress, HostPaths(ingress.rules), balance, services, endpoints);
      var s' := if defaultBackend == "" then applied
                else AddDefaultBackend(applied, defaultBackend, Get(endpoints, defaultBackend));
      DefaultAfterDelete(s', defaultBackend, ingress.namespace, ingress.name);
    case IngressDeleted(ns, n) =>
      DefaultAfterDelete(s, defaultBackend, ns, n);
    case ServiceUpdated(service, ep, order) =>
      DefaultAfterService(s, defaultBackend, service, ep, order);
    case ServiceDeleted(_, _) =>
  }

  lemma DefaultAfterDelete(s: ClusterState, defaultBackend: string, namespace: string, name: string)
    requires DefaultOnly(s, defaultBackend)
    ensures DefaultOnly(DeleteIngress(s, defaultBackend, namespace, name), defaultBackend) && DefaultOnly(SetVersion(s), defaultBackend)
  {
  }

  lemma DefaultAfterService(s: ClusterState, defaultBackend: string, service: Service, ep: Option<Endpoints>, order: seq<string>)
    requires DefaultOnly(s, defaultBackend) && Tidy(s) && ServiceOrder(s, service, order)
    requires UpdateService(s, defaultBackend, service, ep, order).1 == Done
    ensures DefaultOnly(UpdateService(s, defaultBackend, service, ep, order).0, defaultBackend)
  {
    var d := DefaultClusterName(defaultBackend);
    var key := NamespacedName(service.namespace, service.name);
    assert Has(s.service2Cluster, key, d) <==> d in s.table && key in s.table[d];
    UpdateServiceEffect(s, defaultBackend, service, ep, order, d);
    hide UpdateService; hide Has; hide ServiceOrder; hide DefaultClusterName; hide NamespacedName; hide Tidy; hide NewSubCluster;
  }

  lemma DefaultAfterPaths(s: ClusterState, defaultBackend: string, ingress: Ingress, balance: Balance,
                          services: map<string, Service>, endpoints: map<string, Endpoints>)
    requires DefaultOnly(s, defaultBackend) && NamesOk(ingress) && BalanceOk(balance)
    ensures var applied := ApplyPaths(s, ingress, HostPaths(ingress.rules), balance, services, endpoints);
            DefaultOnly(applied, defaultBackend) &&
            DefaultOnly(AddDefaultBackend(applied, defaultBackend, Get(endpoints, defaultBackend)), defaultBackend)
  {
    hide ApplyPaths; hide DefaultClusterName; hide HostPaths; hide NewSubCluster;
    var paths, d := HostPaths(ingress.rules), DefaultClusterName(defaultBackend);
    PathsOk(ingress);
    var svcs := WrittenServices(ingress, paths, balance, d);
    ApplyPathsAt(s, ingress, paths, balance, services, endpoints, d, svcs);
    if i :| 0 <= i < |paths| && d == ClusterOf(ingress, paths[i].1.backend) {
      OwnerOfClusterName(ingress.namespace, ingress.name, paths[i].1.backend, defaultBackend);
    }
  }

  ghost predicate Quiet(s: ClusterState, defaultBackend: string) {
    Inv(s, defaultBackend) && Tidy(s) && DefaultOnly(s, defaultBackend)
  }

  lemma TidyIsCrashFree(s: ClusterState, defaultBackend: string)
    requires Tidy(s)
    ensures NeverCrashes(s, defaultBackend)
  {
    CrashFreeExactly(s, defaultBackend);
    forall ns, n, c
      ensures !Dangling(s, ns, n, c)
    {
      assert Has(s.service2Cluster, NamespacedName(ns, n), c) ==> c in s.table;
    }
  }

  lemma StepKeepsInv(s: ClusterState, defaultBackend: string, e: Event)
    requires Possible(s, e) && Inv(s, defaultBackend)
    ensures Inv(Step(s, defaultBackend, e).0, defaultBackend)
  {
    hide Inv; hide UpdateIngress; hide DeleteIngress; hide UpdateService; hide DeleteService;
    match e
    case IngressUpdated(ingress, balance, services, endpoints, checkOk) =>
      UpdateIngressKeepsInv(s, defaultBackend, ingress, balance, services, endpoints, checkOk);
    case IngressDeleted(ns, n) => DeleteIngressKeepsInv(s, defaultBackend, ns, n);
    case ServiceUpdated(service, ep, order) => UpdateServiceKeepsInv(s, defaultBackend, service, ep, order);
    case ServiceDeleted(ns, n) => DeleteServiceKeepsInv(s, defaultBackend, ns, n);
  }

  lemma GentleStep(s: ClusterState, defaultBackend: string, e: Event)
    requires Possible(s, e) && Quiet(s, defaultBackend) && Gentle(s, defaultBackend, e)
    ensures Step(s, defaultBackend, e).1 != Crashed && Quiet(Step(s, defaultBackend, e).0, defaultBackend)
  {
    TidyIsCrashFree(s, defaultBackend);
    DefaultOnlyKept(s, defaultBackend, e);
    StepKeepsInv(s, defaultBackend, e);
    GentleStepTidy(s, defaultBackend, e);
    hide Inv; hide Tidy; hide DefaultOnly; hide Possible; hide Gentle;
  }

  lemma GentleStepTidy(s: ClusterState, defaultBackend: string, e: Event)
    requires Possible(s, e) && Quiet(s, defaultBackend) && Gentle(s, defaultBackend, e) && NeverCrashes(s, defaultBackend)
    ensures Tidy(Step(s, defaultBackend, e).0)
  {
    match e
    case IngressUpdated(ingress, balance, services, endpoints, checkOk) =>
      hide NeverCrashes; hide Tidy; hide Inv; hide DefaultOnly; hide KeepsServices;
      IngressUpdatedTidy(s, defaultBackend, ingress, balance, services, endpoints, checkOk);
    case IngressDeleted(ns, n) =>
      DeleteIngressTidy(s, defaultBackend, ns, n);
    case ServiceUpdated(service, ep, order) =>
      UpdateServiceTidy(s, defaultBackend, service, ep, order);
    case ServiceDeleted(_, _) =>
  }

  lemma IngressUpdatedTidy(s: ClusterState, defaultBackend: string, ingress: Ingress, balance: Balance,
                           services: map<string, Service>, endpoints: map<string, Endpoints>, checkOk: bool)
    requires Quiet(s, defaultBackend) && NamesOk(ingress) && BalanceOk(balance) && KeepsServices(s, ingress, balance)
    ensures Tidy(UpdateIngress(s, defaultBackend, ingress, balance, services, endpoints, checkOk).0)
  {
    hide Inv; hide Tidy; hide NamesOk; hide BalanceOk; hide KeepsServices; hide HostPaths; hide ApplyPaths; hide AddDefaultBackend; hide DeleteIngress; hide DefaultClusterName;
    var paths := HostPaths(ingress.rules);
    var applied := ApplyPaths(s, ingress, paths, balance, services, endpoints);
    assert KubeName(ingress.namespace) && KubeName(ingress.name) by { NamesParts(ingress); }
    ApplyPathsTidy(s, ingress, balance, services, endpoints);
    ApplyPathsKeepInv(s, defaultBackend, ingress, paths, balance, services, endpoints);
    AddDefaultTidy(applied, defaultBackend, Get(endpoints, defaultBackend));
    AddDefaultKeepsInv(applied, defaultBackend, Get(endpoints, defaultBackend));
    DefaultAfterPaths(s, defaultBackend, ingress, balance, services, endpoints);
    var s' := if defaultBackend == "" then applied
              else AddDefaultBackend(applied, defaultBackend, Get(endpoints, defaultBackend));
    DeleteIngressTidy(s', defaultBackend, ingress.namespace, ingress.name);
    SetVersionTidy(s');
  }

  lemma NamesParts(ingress: Ingress)
    requires NamesOk(ingress)
    ensures KubeName(ingress.namespace) && KubeName(ingress.name)
  {
  }

  lemma SetVersionTidy(s: ClusterState)
    requires Tidy(s)
    ensures Tidy(SetVersion(s))
  {
  }

  /** The state after a run, and whether every event of it was possible and gentle. */
  function RunFrom(s: ClusterState, defaultBackend: string, events: seq<Event>): ClusterState {
    if events == [] then s else
      Step(RunFrom(s, defaultBackend, events[..|events| - 1]), defaultBackend, events[|events| - 1]).0
  }

  ghost predicate GentleRun(s: ClusterState, defaultBackend: string, events: seq<Event>) {
    events != [] ==>
      var before := RunFrom(s, defaultBackend, events[..|events| - 1]);
      && GentleRun(s, defaultBackend, events[..|events| - 1])
      && Possible(before, events[|events| - 1]) && Gentle(before, defaultBackend, events[|events| - 1])
  }

  /** On every run without service deletions and shrinking clusters the service index is the exact inverse of
      the table, and no service event can crash. */
  lemma {:induction false} GentleRunsNeverCrash(defaultBackend: string, version: Version, events: seq<Event>)
    requires GentleRun(InitialState(version), defaultBackend, events)
    ensures var s := RunFrom(InitialState(version), defaultBackend, events);
            Inv(s, defaultBackend) && Tidy(s) && NeverCrashes(s, defaultBackend)
  {
    GentleRunsStayQuiet(defaultBackend, version, events);
    TidyIsCrashFree(RunFrom(InitialState(version), defaultBackend, events), defaultBackend);
  }

  lemma {:induction false} GentleRunsStayQuiet(defaultBackend: string, version: Version, events: seq<Event>)
    requires GentleRun(InitialState(version), defaultBackend, events)
    ensures Quiet(RunFrom(InitialState(version), defaultBackend, events), defaultBackend)
  {
    if events != [] {
      hide Quiet; hide Possible; hide Gentle; hide Step;
      var front := events[..|events| - 1];
      GentleRunsStayQuiet(defaultBackend, version, front);
      GentleStep(RunFrom(InitialState(version), defaultBackend, front), defaultBackend, events[|events| - 1]);
    }
  }

  /** Delete a service between an ingress's update and its deletion, and the next event of that service can crash:
      the deletion of the ingress only unlinks services the table still lists. An UpdateService that does not find its
      port deletes the service too, so Kubernetes events alone lead here. */
  lemma DeletedServiceDangles(s: ClusterState, defaultBackend: string, ingress: Ingress, balance: Balance,
                              services: map<string, Service>, endpoints: map<string, Endpoints>, b: ServiceBackend, ns: string, n: string)
    requires Inv(s, defaultBackend) && NamesOk(ingress) && BalanceOk(balance) && ingress.rules != []
    requires exists i :: 0 <= i < |HostPaths(ingress.rules)| && HostPaths(ingress.rules)[i].1.backend == b
    requires NamespacedName(ns, n) in ServicesOf(ingress.namespace, b.name, balance)
    ensures var s1 := UpdateIngress(s, defaultBackend, ingress, balance, services, endpoints, true).0;
            var s3 := DeleteIngress(DeleteService(s1, ns, n), defaultBackend, ingress.namespace, ingress.name);
            Dangling(s3, ns, n, ClusterOf(ingress, b)) && !NeverCrashes(s3, defaultBackend)
  {
    var s1 := UpdateIngress(s, defaultBackend, ingress, balance, services, endpoints, true).0;
    var c := ClusterOf(ingress, b);
    assert KubeName(ingress.namespace) && KubeName(ingress.name) by { NamesParts(ingress); }
    UpdateIngressKeepsInv(s, defaultBackend, ingress, balance, services, endpoints, true);
    UpdateIngressAt(s, defaultBackend, ingress, balance, services, endpoints, b);
    OwnerOfClusterName(ingress.namespace, ingress.name, b, defaultBackend);
    hide UpdateIngress; hide NamesOk; hide HostPaths; hide ClusterOf; hide ServicesOf; hide NewClusterBackend; hide NewGslbCluster;
    UnlistedStays(s1, defaultBackend, ingress.namespace, ingress.name, c, ns, n);
    var s3 := DeleteIngress(DeleteService(s1, ns, n), defaultBackend, ingress.namespace, ingress.name);
    hide DeleteIngress; hide DeleteService; hide Inv;
    assert Dangling(s3, ns, n, c);
    DanglingCrashes(s3, defaultBackend, ns, n, c);
  }

  lemma UnlistedStays(s: ClusterState, defaultBackend: string, namespace: string, name: string, c: string, ns: string, n: string)
    requires Inv(s, defaultBackend) && c in s.table && c != DefaultClusterName(defaultBackend)
    requires OwnerOf(c) == NamespacedName(namespace, name) && Has(s.service2Cluster, NamespacedName(ns, n), c)
    ensures var s' := DeleteIngress(DeleteService(s, ns, n), defaultBackend, namespace, name);
            Has(s'.service2Cluster, NamespacedName(ns, n), c) && c !in s'.table
  {
    var i, svc, d := NamespacedName(namespace, name), NamespacedName(ns, n), DefaultClusterName(defaultBackend);
    var s2 := DeleteService(s, ns, n);
    assert Has(s.ingress2Cluster, i, c);
    assert s2.service2Cluster == s.service2Cluster && s2.ingress2Cluster == s.ingress2Cluster;
    assert c in s2.table && svc !in s2.table[c];
    var cs := s2.ingress2Cluster[i];
    WithoutListedHas(s2.service2Cluster, s2.table, cs, svc, c);
    RemoveHas(WithoutListed(s2.service2Cluster, s2.table, cs), defaultBackend, d, svc, c);
    hide Inv; hide DeleteService; hide OwnerOf; hide NamespacedName; hide DefaultClusterName; hide WithoutListed; hide Remove;
  }
}
