/** What every ingress and service event keeps in ClusterConfig. */
module ClusterInvariants {
  import opened Multimaps
  import opened Kube
  import opened Names
  import opened Annotations
  import opened Clusters

  // ---------------------------------------------------------------- the invariant

  /** Every service of a cluster in the table leads to that cluster. */
  ghost predicate Covered(table: map<string, ClusterBackend>, service2Cluster: Multimap<string, string>) {
    forall c, svc :: c in table && svc in table[c] ==> Has(service2Cluster, svc, c)
  }

  /** ingress2Cluster owns exactly the non-default clusters of the table, each by the ingress in its name. */
  ghost predicate Owned(ingress2Cluster: Multimap<string, string>, clusters: set<string>, dflt: string) {
    && (forall i, c :: Has(ingress2Cluster, i, c) ==> OwnerOf(c) == i && c in clusters && c != dflt)
    && (forall c :: c in clusters && c != dflt ==> Has(ingress2Cluster, OwnerOf(c), c))
  }

  /** gslb clusters are non-empty, with non-negative weights for services the table has. */
  ghost predicate Balanced(table: map<string, ClusterBackend>, gslb: map<string, GslbCluster>) {
    forall c :: c in gslb ==> c in table && GslbOk(table[c].Keys, gslb[c])
  }

  ghost predicate GslbOk(services: set<string>, g: GslbCluster) {
    g != map[] && g.Keys <= services && forall svc :: svc in g ==> g[svc] >= 0
  }

  ghost predicate Inv(s: ClusterState, defaultBackend: string) {
    && Covered(s.table, s.service2Cluster)
    && Owned(s.ingress2Cluster, s.table.Keys, DefaultClusterName(defaultBackend))
    && Balanced(s.table, s.gslb)
  }

  /** What GetBalance guarantees of the balance it returns. */
  ghost predicate BalanceOk(balance: Balance) {
    forall s :: s in balance ==> balance[s] != map[] && forall n :: n in balance[s] ==> balance[s][n] >= 0
  }

  /** balance, _ := GetBalance(...): an error leaves the nil balance. */
  ghost function EffectiveBalance(annotation: BalanceAnnotation): Balance {
    if annotation.Decoded? && AcceptedBalance(annotation.balance) then annotation.balance else map[]
  }

  lemma EffectiveBalanceOk(annotation: BalanceAnnotation)
    ensures BalanceOk(EffectiveBalance(annotation))
  {
  }

  ghost predicate NamesOk(ingress: Ingress) {
    && KubeName(ingress.namespace) && KubeName(ingress.name)
    && forall i, j :: 0 <= i < |ingress.rules| && 0 <= j < |ingress.rules[i].paths| ==>
         ValidBackend(ingress.rules[i].paths[j].backend)
  }

  ghost predicate BackendsOk(paths: seq<(string, HttpPath)>) {
    forall i :: 0 <= i < |paths| ==> ValidBackend(paths[i].1.backend)
  }

  lemma {:induction false} HostPathsOk(ingress: Ingress, n: nat)
    requires NamesOk(ingress) && n <= |ingress.rules|
    ensures BackendsOk(HostPaths(ingress.rules[..n]))
  {
    if n > 0 {
      HostPathsOk(ingress, n - 1);
      HostPathsStep(ingress.rules, n - 1);
    }
  }

  lemma PathsOk(ingress: Ingress)
    requires NamesOk(ingress)
    ensures BackendsOk(HostPaths(ingress.rules))
  {
    HostPathsOk(ingress, |ingress.rules|);
    assert ingress.rules[..|ingress.rules|] == ingress.rules;
  }

  // ---------------------------------------------------------------- services of a backend

  /** newClusterBackend and newGslbClusterConf produce the same service keys; both are never empty. */
  lemma SameServices(namespace: string, backend: ServiceBackend, balance: Balance,
                     services: map<string, Service>, endpoints: map<string, Endpoints>)
    requires BalanceOk(balance)
    ensures NewClusterBackend(namespace, backend, balance, services, endpoints).Keys ==
            NewGslbCluster(namespace, backend.name, balance).Keys == ServicesOf(namespace, backend.name, balance)
    ensures ServicesOf(namespace, backend.name, balance) != {}
    ensures forall s :: s in NewGslbCluster(namespace, backend.name, balance) ==>
              NewGslbCluster(namespace, backend.name, balance)[s] >= 0
  {
    if backend.name in balance {
      var n :| n in balance[backend.name];
      assert NamespacedName(namespace, n) in ServicesOf(namespace, backend.name, balance);
    }
  }

  lemma LocalNameInverts(namespace: string, n: string)
    ensures LocalName(namespace, NamespacedName(namespace, n)) == n
  {
  }

  // ---------------------------------------------------------------- ingress updates

  function ClusterOf(ingress: Ingress, backend: ServiceBackend): string {
    ClusterName(NamespacedName(ingress.namespace, ingress.name), backend)
  }

  /** The clusters of an ingress's paths. */
  function ClustersOf(ingress: Ingress, paths: seq<(string, HttpPath)>): set<string> {
    set i | 0 <= i < |paths| :: ClusterOf(ingress, paths[i].1.backend)
  }

  lemma PutAllHas<K, V>(m: Multimap<K, V>, ks: set<K>, v: V, k: K, v': V)
    ensures Has(PutAll(m, ks, v), k, v') <==> Has(m, k, v') || (k in ks && v' == v)
  {
  }

  lemma ApplyPathKeepsInv(s: ClusterState, defaultBackend: string, ingress: Ingress, backend: ServiceBackend,
                          balance: Balance, services: map<string, Service>, endpoints: map<string, Endpoints>)
    requires Inv(s, defaultBackend) && BalanceOk(balance)
    requires KubeName(ingress.namespace) && KubeName(ingress.name)
    ensures Inv(ApplyPath(s, ingress, backend, balance, services, endpoints), defaultBackend)
  {
    hide NewGslbCluster; hide NewClusterBackend; hide ClusterName; hide OwnerOf; hide DefaultClusterName; hide NamespacedName; hide Inv;
    var i := NamespacedName(ingress.namespace, ingress.name);
    var cluster := ClusterOf(ingress, backend);
    var keys := NewGslbCluster(ingress.namespace, backend.name, balance).Keys;
    OwnerOfClusterName(ingress.namespace, ingress.name, backend, defaultBackend);
    SameServices(ingress.namespace, backend, balance, services, endpoints);
    var g := NewGslbCluster(ingress.namespace, backend.name, balance);
    var table := NewClusterBackend(ingress.namespace, backend, balance, services, endpoints);
    assert g.Keys == table.Keys && g != map[] by {
      var svc :| svc in ServicesOf(ingress.namespace, backend.name, balance);
      assert svc in g.Keys;
    }
    InsertClusterKeepsInv(s, defaultBackend, i, cluster, table, g);
  }

  /** Writing one owned cluster with the same service keys into all four maps keeps the invariant. */
  lemma InsertClusterKeepsInv(s: ClusterState, defaultBackend: string, i: string, cluster: string, backends: ClusterBackend, g: GslbCluster)
    requires Inv(s, defaultBackend)
    requires OwnerOf(cluster) == i && cluster != DefaultClusterName(defaultBackend)
    requires g.Keys == backends.Keys && g != map[] && forall svc :: svc in g ==> g[svc] >= 0
    ensures Inv(s.(table := s.table[cluster := backends], gslb := s.gslb[cluster := g],
                   ingress2Cluster := Put(s.ingress2Cluster, i, cluster),
                   service2Cluster := PutAll(s.service2Cluster, g.Keys, cluster)), defaultBackend)
  {
    hide Covered; hide Owned; hide Balanced; hide OwnerOf; hide DefaultClusterName; hide Has; hide Put; hide PutAll;
    CoveredInsert(s.table, s.service2Cluster, cluster, backends);
    OwnedInsert(s.ingress2Cluster, s.table.Keys, DefaultClusterName(defaultBackend), i, cluster);
    BalancedInsert(s.table, s.gslb, cluster, backends, g);
    assert s.table[cluster := backends].Keys == s.table.Keys + {cluster};
  }

  lemma BalancedInsert(table: map<string, ClusterBackend>, gslb: map<string, GslbCluster>, cluster: string,
                       backends: ClusterBackend, g: GslbCluster)
    requires Balanced(table, gslb) && GslbOk(backends.Keys, g)
    ensures Balanced(table[cluster := backends], gslb[cluster := g])
  {
  }

  lemma CoveredInsert(table: map<string, ClusterBackend>, m: Multimap<string, string>, cluster: string, backends: ClusterBackend)
    requires Covered(table, m)
    ensures Covered(table[cluster := backends], PutAll(m, backends.Keys, cluster))
  {
  }

  lemma OwnedInsert(m: Multimap<string, string>, clusters: set<string>, dflt: string, i: string, cluster: string)
    requires Owned(m, clusters, dflt) && OwnerOf(cluster) == i && cluster != dflt
    ensures Owned(Put(m, i, cluster), clusters + {cluster}, dflt)
  {
    hide OwnerOf;
    hide Has; hide Put;
    forall j, c
      ensures Has(Put(m, i, cluster), j, c) <==> Has(m, j, c) || (j == i && c == cluster)
    {
      PutHas(m, i, cluster, j, c);
    }
  }

  lemma {:induction false} ApplyPathsKeepInv(s: ClusterState, defaultBackend: string, ingress: Ingress,
                                             paths: seq<(string, HttpPath)>, balance: Balance,
                                             services: map<string, Service>, endpoints: map<string, Endpoints>)
    requires Inv(s, defaultBackend) && BalanceOk(balance)
    requires KubeName(ingress.namespace) && KubeName(ingress.name)
    ensures Inv(ApplyPaths(s, ingress, paths, balance, services, endpoints), defaultBackend)
  {
    hide Inv; hide ApplyPath;
    if paths != [] {
      var front := paths[..|paths| - 1];
      ApplyPathsKeepInv(s, defaultBackend, ingress, front, balance, services, endpoints);
      ApplyPathKeepsInv(ApplyPaths(s, ingress, front, balance, services, endpoints), defaultBackend, ingress,
                        paths[|paths| - 1].1.backend, balance, services, endpoints);
    }
  }

  lemma AddDefaultKeepsInv(s: ClusterState, defaultBackend: string, ep: Option<Endpoints>)
    requires Inv(s, defaultBackend)
    ensures Inv(AddDefaultBackend(s, defaultBackend, ep), defaultBackend)
  {
    hide NewSubCluster; hide DefaultClusterName;
    hide Owned; hide Covered; hide Balanced; hide Put; hide PutAll;
    var cluster := DefaultClusterName(defaultBackend);
    var backends: ClusterBackend := map[defaultBackend := NewSubCluster(ep, NO_PORT)];
    CoveredInsert(s.table, s.service2Cluster, cluster, backends);
    PutIsPutAll(s.service2Cluster, defaultBackend, cluster);
    assert backends.Keys == {defaultBackend};
    var g: GslbCluster := map[defaultBackend := DEFAULT_WEIGHT];
    assert defaultBackend in g;
    BalancedInsert(s.table, s.gslb, cluster, backends, g);
    OwnedWithDefault(s.ingress2Cluster, s.table.Keys, cluster);
    assert s.table[cluster := backends].Keys == s.table.Keys + {cluster};
  }

  lemma OwnedWithDefault(ingress2Cluster: Multimap<string, string>, clusters: set<string>, dflt: string)
    requires Owned(ingress2Cluster, clusters, dflt)
    ensures Owned(ingress2Cluster, clusters + {dflt}, dflt)
  {
  }

  lemma PutIsPutAll(m: Multimap<string, string>, k: string, v: string)
    ensures PutAll(m, {k}, v) == Put(m, k, v)
  {
    SameAssociations(PutAll(m, {k}, v), Put(m, k, v));
  }

  // ---------------------------------------------------------------- deletion

  lemma WithoutListedHas(m: Multimap<string, string>, table: map<string, ClusterBackend>, cs: set<string>, svc: string, c: string)
    ensures Has(WithoutListed(m, table, cs), svc, c) <==> Has(m, svc, c) && !(c in cs && c in table && svc in table[c])
  {
    if Has(m, svc, c) && !(c in cs && c in table && svc in table[c]) {
      assert c in m[svc] - Listed(table, cs, svc);
    }
  }

  lemma DropOwnClustersKeepsInv(s: ClusterState, defaultBackend: string, ingressName: string)
    requires Inv(s, defaultBackend) && ingressName in s.ingress2Cluster
    ensures Inv(DropClusters(s, s.ingress2Cluster[ingressName]).(ingress2Cluster := RemoveKey(s.ingress2Cluster, ingressName)),
                defaultBackend)
  {
    var cs := s.ingress2Cluster[ingressName];
    var s' := DropClusters(s, cs).(ingress2Cluster := RemoveKey(s.ingress2Cluster, ingressName));
    hide DefaultClusterName; hide OwnerOf; hide WithoutListed;
    forall c, svc | c in s'.table && svc in s'.table[c]
      ensures Has(s'.service2Cluster, svc, c)
    {
      WithoutListedHas(s.service2Cluster, s.table, cs, svc, c);
    }
    forall j, c
      ensures Has(s'.ingress2Cluster, j, c) <==> Has(s.ingress2Cluster, j, c) && j != ingressName
      ensures c in cs <==> Has(s.ingress2Cluster, ingressName, c)
    {
      RemoveKeyHas(s.ingress2Cluster, ingressName, j, c);
    }
    hide Has;
  }

  lemma DelDefaultKeepsInv(s: ClusterState, defaultBackend: string)
    requires Inv(s, defaultBackend)
    ensures Inv(DelDefaultBackend(s, defaultBackend), defaultBackend)
  {
    hide DefaultClusterName; hide OwnerOf;
    var s' := DelDefaultBackend(s, defaultBackend);
    var cluster := DefaultClusterName(defaultBackend);
    forall c, svc | c in s'.table && svc in s'.table[c]
      ensures Has(s'.service2Cluster, svc, c)
    {
      RemoveHas(s.service2Cluster, defaultBackend, cluster, svc, c);
    }
  }

  lemma DeleteIngressKeepsInv(s: ClusterState, defaultBackend: string, namespace: string, name: string)
    requires Inv(s, defaultBackend)
    ensures Inv(DeleteIngress(s, defaultBackend, namespace, name), defaultBackend)
  {
    var ingressName := NamespacedName(namespace, name);
    if ingressName in s.ingress2Cluster {
      DropOwnClustersKeepsInv(s, defaultBackend, ingressName);
      var s' := DropClusters(s, s.ingress2Cluster[ingressName]).(ingress2Cluster := RemoveKey(s.ingress2Cluster, ingressName));
      DelDefaultKeepsInv(s', defaultBackend);
    }
  }

  lemma UpdateIngressKeepsInv(s: ClusterState, defaultBackend: string, ingress: Ingress, balance: Balance,
                              services: map<string, Service>, endpoints: map<string, Endpoints>, checkOk: bool)
    requires Inv(s, defaultBackend) && BalanceOk(balance)
    requires KubeName(ingress.namespace) && KubeName(ingress.name)
    ensures Inv(UpdateIngress(s, defaultBackend, ingress, balance, services, endpoints, checkOk).0, defaultBackend)
  {
    hide Inv; hide ApplyPaths; hide AddDefaultBackend; hide DeleteIngress; hide HostPaths;
    var paths := HostPaths(ingress.rules);
    ApplyPathsKeepInv(s, defaultBackend, ingress, paths, balance, services, endpoints);
    var applied := ApplyPaths(s, ingress, paths, balance, services, endpoints);
    AddDefaultKeepsInv(applied, defaultBackend, Get(endpoints, defaultBackend));
    var s' := if defaultBackend == "" then applied
              else AddDefaultBackend(applied, defaultBackend, Get(endpoints, defaultBackend));
    DeleteIngressKeepsInv(s', defaultBackend, ingress.namespace, ingress.name);
    SetVersionKeepsInv(s', defaultBackend);
  }

  lemma SetVersionKeepsInv(s: ClusterState, defaultBackend: string)
    requires Inv(s, defaultBackend)
    ensures Inv(SetVersion(s), defaultBackend)
  {
  }

  // ---------------------------------------------------------------- services

  lemma DeleteServiceKeepsInv(s: ClusterState, defaultBackend: string, namespace: string, name: string)
    requires Inv(s, defaultBackend)
    ensures Inv(DeleteService(s, namespace, name), defaultBackend)
  {
  }

  lemma {:induction false} UpdateClustersKeepsInv(s: ClusterState, defaultBackend: string, service: Service,
                                                  ep: Option<Endpoints>, order: seq<string>)
    requires Inv(s, defaultBackend)
    requires forall c :: c in order ==> Has(s.service2Cluster, NamespacedName(service.namespace, service.name), c)
    ensures Inv(UpdateClusters(s, defaultBackend, service, ep, order).0, defaultBackend)
    decreases |order|
  {
    if order != [] {
      var serviceName := NamespacedName(service.namespace, service.name);
      var name := order[0];
      var port := TargetPortOf(ParsePort(name), service.ports);
      if port == NO_PORT && serviceName != defaultBackend {
        DeleteServiceKeepsInv(s, defaultBackend, service.namespace, service.name);
      } else if name in s.table {
        var s' := s.(table := s.table[name := s.table[name][serviceName := NewSubCluster(ep, port)]],
                     gslb := s.gslb[name := NewGslbCluster(service.namespace, service.name, map[])]);
        SetServiceKeepsInv(s, defaultBackend, service, NewSubCluster(ep, port), name);
        UpdateClustersKeepsInv(s', defaultBackend, service, ep, order[1..]);
      }
    }
  }

  lemma InvParts(s: ClusterState, defaultBackend: string)
    ensures Inv(s, defaultBackend) <==>
            && Covered(s.table, s.service2Cluster) && Balanced(s.table, s.gslb)
            && Owned(s.ingress2Cluster, s.table.Keys, DefaultClusterName(defaultBackend))
  {
    hide Covered; hide Balanced; hide Owned;
  }

  lemma DefaultWeightOk(service: Service)
    ensures NewGslbCluster(service.namespace, service.name, map[]) == map[NamespacedName(service.namespace, service.name) := DEFAULT_WEIGHT]
    ensures DEFAULT_WEIGHT >= 0
  {
    hide NamespacedName;
  }

  lemma CoveredAfterSet(table: map<string, ClusterBackend>, service2Cluster: Multimap<string, string>, name: string, serviceName: string, instances: SubCluster)
    requires Covered(table, service2Cluster) && name in table && Has(service2Cluster, serviceName, name)
    ensures Covered(table[name := table[name][serviceName := instances]], service2Cluster)
  {
    hide Has;
  }

  lemma BalancedAfterSet(table: map<string, ClusterBackend>, gslb: map<string, GslbCluster>, name: string, serviceName: string, instances: SubCluster, g: GslbCluster)
    requires Balanced(table, gslb) && name in table && g == map[serviceName := DEFAULT_WEIGHT]
    ensures Balanced(table[name := table[name][serviceName := instances]], gslb[name := g])
  {
    var table' := table[name := table[name][serviceName := instances]];
    forall c | c in gslb[name := g]
      ensures c in table' && GslbOk(table'[c].Keys, gslb[name := g][c])
    {
      if c == name {
        assert table'[name] == table[name][serviceName := instances];
        assert serviceName in table'[name] && serviceName in g;
      } else {
        assert GslbOk(table[c].Keys, gslb[c]);
      }
    }
  }

  lemma SetServiceKeepsInv(s: ClusterState, defaultBackend: string, service: Service, instances: SubCluster, name: string)
    requires Inv(s, defaultBackend) && name in s.table
    requires Has(s.service2Cluster, NamespacedName(service.namespace, service.name), name)
    ensures var serviceName := NamespacedName(service.namespace, service.name);
            Inv(s.(table := s.table[name := s.table[name][serviceName := instances]],
                   gslb := s.gslb[name := NewGslbCluster(service.namespace, service.name, map[])]), defaultBackend)
  {
    hide DefaultClusterName; hide Owned;
    hide *;
    var serviceName := NamespacedName(service.namespace, service.name);
    var g, table := NewGslbCluster(service.namespace, service.name, map[]), s.table[name := s.table[name][serviceName := instances]];
    DefaultWeightOk(service);
    assert table.Keys == s.table.Keys;
    InvParts(s, defaultBackend);
    CoveredAfterSet(s.table, s.service2Cluster, name, serviceName, instances);
    BalancedAfterSet(s.table, s.gslb, name, serviceName, instances, g);
    InvParts(s.(table := table, gslb := s.gslb[name := g]), defaultBackend);
  }

  lemma UpdateServiceKeepsInv(s: ClusterState, defaultBackend: string, service: Service, ep: Option<Endpoints>, order: seq<string>)
    requires Inv(s, defaultBackend) && ServiceOrder(s, service, order)
    ensures Inv(UpdateService(s, defaultBackend, service, ep, order).0, defaultBackend)
  {
    UpdateClustersKeepsInv(s, defaultBackend, service, ep, order);
  }

  // ---------------------------------------------------------------- consequences

  /** A non-default cluster of either table is owned by exactly one ingress. */
  lemma OneOwner(s: ClusterState, defaultBackend: string, c: string, i: string)
    requires Inv(s, defaultBackend) && (c in s.table || c in s.gslb) && c != DefaultClusterName(defaultBackend)
    ensures Has(s.ingress2Cluster, i, c) <==> i == OwnerOf(c)
  {
  }

  /** After the deletion of an ingress no cluster is its own, and the clusters of all others are as before. */
  lemma DeleteIngressIsExact(s: ClusterState, defaultBackend: string, namespace: string, name: string, c: string)
    requires Inv(s, defaultBackend) && c != DefaultClusterName(defaultBackend)
    ensures var i := NamespacedName(namespace, name); var s' := DeleteIngress(s, defaultBackend, namespace, name);
            && i !in s'.ingress2Cluster
            && (OwnerOf(c) == i ==> c !in s'.table && c !in s'.gslb)
            && (OwnerOf(c) != i ==> Get(s'.table, c) == Get(s.table, c) && Get(s'.gslb, c) == Get(s.gslb, c))
            && (forall j :: j != i ==> Values(s'.ingress2Cluster, j) == Values(s.ingress2Cluster, j))
  {
    var i := NamespacedName(namespace, name);
    DeleteIngressKeepsInv(s, defaultBackend, namespace, name);
    hide DefaultClusterName; hide OwnerOf; hide NamespacedName; hide WithoutListed; hide Covered; hide Balanced;
    assert i in s.ingress2Cluster ==> (c in s.ingress2Cluster[i] <==> Has(s.ingress2Cluster, i, c));
    assert c in s.table ==> Has(s.ingress2Cluster, OwnerOf(c), c);
  }

  /** After DeleteService a surviving gslb cluster of the service has a positive weight left exactly when
      another of its services had one: the pruning of empty clusters is not enough. */
  lemma PositiveWeightLeft(s: ClusterState, namespace: string, name: string, c: string)
    requires Has(s.service2Cluster, NamespacedName(namespace, name), c) && c in s.gslb
    ensures var svc := NamespacedName(namespace, name); var s' := DeleteService(s, namespace, name);
            && (c in s'.gslb <==> exists t :: t in s.gslb[c] && t != svc)
            && ((c in s'.gslb && exists t :: t in s'.gslb[c] && s'.gslb[c][t] > 0) <==>
                exists t :: t in s.gslb[c] && t != svc && s.gslb[c][t] > 0)
  {
    var svc := NamespacedName(namespace, name);
    var s' := DeleteService(s, namespace, name);
    var g := s.gslb[c];
    var rest := g - {svc};
    assert c in s'.gslb <==> rest != map[];
    assert c in s'.gslb ==> s'.gslb[c] == rest;
    hide NamespacedName; hide DeleteService; hide Has;
    assert forall t :: t in rest <==> t in g && t != svc;
    assert forall t :: t in rest ==> rest[t] == g[t];
    if rest != map[] {
      var t :| t in rest;
      assert t in g && t != svc;
    }
    if t :| t in g && t != svc && g[t] > 0 {
      assert t in rest && rest[t] > 0;
    }
  }
}
