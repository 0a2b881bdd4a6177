/** Properties of ClusterConfig that relate several events: undoing an ingress, service events against a
    rebuild, and when a service event finds its cluster. */
module ClusterRuns {
  import opened Multimaps
  import opened Kube
  import opened Names
  import opened Clusters
  import opened ClusterInvariants

  // ---------------------------------------------------------------- what an ingress update writes

  lemma SameClusterSameService(ingress: Ingress, b: ServiceBackend, b': ServiceBackend)
    requires KubeName(ingress.namespace) && KubeName(ingress.name) && KubeName(b.name) && KubeName(b'.name)
    requires ClusterOf(ingress, b) == ClusterOf(ingress, b')
    ensures b.name == b'.name
  {
    var i := NamespacedName(ingress.namespace, ingress.name);
    var rest, rest' := b.name + "_" + PortString(b.port), b'.name + "_" + PortString(b'.port);
    assert ClusterOf(ingress, b) == i + ['_'] + rest && ClusterOf(ingress, b') == i + ['_'] + rest';
    CutFirst(i, rest, i, rest', '_');
    CutFirst(b.name, PortString(b.port), b'.name, PortString(b'.port), '_');
  }

  /** Cluster c is written by one of the paths, for the given services. */
  ghost predicate Writes(ingress: Ingress, paths: seq<(string, HttpPath)>, balance: Balance, c: string, svcs: set<string>) {
    exists i :: 0 <= i < |paths| && WritesAt(ingress, paths[i].1.backend, balance, c, svcs)
  }

  ghost predicate WritesAt(ingress: Ingress, b: ServiceBackend, balance: Balance, c: string, svcs: set<string>) {
    c == ClusterOf(ingress, b) && svcs == ServicesOf(ingress.namespace, b.name, balance)
  }

  lemma WritesStep(ingress: Ingress, paths: seq<(string, HttpPath)>, balance: Balance, c: string, svcs: set<string>)
    requires paths != []
    ensures Writes(ingress, paths, balance, c, svcs) <==>
            Writes(ingress, paths[..|paths| - 1], balance, c, svcs) || WritesAt(ingress, paths[|paths| - 1].1.backend, balance, c, svcs)
  {
  }

  /** The effect of all paths on one cluster c, whose services are svcs whenever a path writes it. */
  lemma {:induction false} ApplyPathsAt(s: ClusterState, ingress: Ingress, paths: seq<(string, HttpPath)>, balance: Balance,
                                        services: map<string, Service>, endpoints: map<string, Endpoints>,
                                        c: string, svcs: set<string>)
    requires KubeName(ingress.namespace) && KubeName(ingress.name) && BackendsOk(paths) && BalanceOk(balance)
    requires forall t :: Writes(ingress, paths, balance, c, t) ==> t == svcs
    ensures var s' := ApplyPaths(s, ingress, paths, balance, services, endpoints);
            && (Writes(ingress, paths, balance, c, svcs) ==>
                  c in s'.table && c in s'.gslb && s'.table[c].Keys == s'.gslb[c].Keys == svcs)
            && (!Writes(ingress, paths, balance, c, svcs) ==>
                  Get(s'.table, c) == Get(s.table, c) && Get(s'.gslb, c) == Get(s.gslb, c))
            && (forall i :: Has(s'.ingress2Cluster, i, c) <==>
                  Has(s.ingress2Cluster, i, c) ||
                  (i == NamespacedName(ingress.namespace, ingress.name) && Writes(ingress, paths, balance, c, svcs)))
            && (forall svc :: Has(s'.service2Cluster, svc, c) <==>
                  Has(s.service2Cluster, svc, c) || (svc in svcs && Writes(ingress, paths, balance, c, svcs)))
  {
    if paths != [] {
      var front, b := paths[..|paths| - 1], paths[|paths| - 1].1.backend;
      forall t
        ensures Writes(ingress, paths, balance, c, t) <==>
                Writes(ingress, front, balance, c, t) || WritesAt(ingress, b, balance, c, t)
      {
        WritesStep(ingress, paths, balance, c, t);
      }
      ApplyPathsAt(s, ingress, front, balance, services, endpoints, c, svcs);
      ApplyPathAt(ApplyPaths(s, ingress, front, balance, services, endpoints), ingress, b, balance, services, endpoints, c);
      hide Writes; hide ApplyPath; hide ClusterOf; hide ServicesOf; hide NamespacedName; hide Has;
      assert c == ClusterOf(ingress, b) ==> WritesAt(ingress, b, balance, c, ServicesOf(ingress.namespace, b.name, balance));
    }
  }

  lemma ApplyPathAt(s: ClusterState, ingress: Ingress, b: ServiceBackend, balance: Balance,
                    services: map<string, Service>, endpoints: map<string, Endpoints>, c: string)
    requires BalanceOk(balance)
    ensures var s' := ApplyPath(s, ingress, b, balance, services, endpoints);
            var svcs := ServicesOf(ingress.namespace, b.name, balance);
            && (c == ClusterOf(ingress, b) ==>
                  c in s'.table && c in s'.gslb && s'.table[c].Keys == s'.gslb[c].Keys == svcs)
            && (c != ClusterOf(ingress, b) ==>
                  Get(s'.table, c) == Get(s.table, c) && Get(s'.gslb, c) == Get(s.gslb, c))
            && (forall i :: Has(s'.ingress2Cluster, i, c) <==>
                  Has(s.ingress2Cluster, i, c) ||
                  (i == NamespacedName(ingress.namespace, ingress.name) && c == ClusterOf(ingress, b)))
            && (forall svc :: Has(s'.service2Cluster, svc, c) <==>
                  Has(s.service2Cluster, svc, c) || (svc in svcs && c == ClusterOf(ingress, b)))
  {
    hide NewGslbCluster; hide NewClusterBackend; hide ClusterName; hide NamespacedName; hide ServicesOf;
    SameServices(ingress.namespace, b, balance, services, endpoints);
    var cluster := ClusterOf(ingress, b);
    var i' := NamespacedName(ingress.namespace, ingress.name);
    var keys := NewGslbCluster(ingress.namespace, b.name, balance).Keys;
    var s' := ApplyPath(s, ingress, b, balance, services, endpoints);
    forall i
      ensures Has(s'.ingress2Cluster, i, c) <==> Has(s.ingress2Cluster, i, c) || (i == i' && c == cluster)
    {
      PutHas(s.ingress2Cluster, i', cluster, i, c);
    }
    forall svc
      ensures Has(s'.service2Cluster, svc, c) <==> Has(s.service2Cluster, svc, c) || (svc in keys && c == cluster)
    {
      PutAllHas(s.service2Cluster, keys, cluster, svc, c);
    }
  }

  /** The services that the paths give to cluster c. */
  lemma WrittenServices(ingress: Ingress, paths: seq<(string, HttpPath)>, balance: Balance, c: string) returns (svcs: set<string>)
    requires KubeName(ingress.namespace) && KubeName(ingress.name) && BackendsOk(paths)
    ensures forall t :: Writes(ingress, paths, balance, c, t) ==> t == svcs
    ensures c in ClustersOf(ingress, paths) <==> Writes(ingress, paths, balance, c, svcs)
  {
    if i :| 0 <= i < |paths| && c == ClusterOf(ingress, paths[i].1.backend) {
      svcs := ServicesOf(ingress.namespace, paths[i].1.backend.name, balance);
      assert WritesAt(ingress, paths[i].1.backend, balance, c, svcs);
      hide ServicesOf; hide ClusterOf; hide KubeName;
      forall j | 0 <= j < |paths| && c == ClusterOf(ingress, paths[j].1.backend)
        ensures paths[j].1.backend.name == paths[i].1.backend.name
      {
        assert ValidBackend(paths[i].1.backend) && ValidBackend(paths[j].1.backend);
        SameClusterSameService(ingress, paths[i].1.backend, paths[j].1.backend);
      }
    } else {
      svcs := {};
    }
  }

  // ---------------------------------------------------------------- undo

  /** The state without the default backend's entries. */
  function ExceptDefault(s: ClusterState, defaultBackend: string): ClusterState {
    DelDefaultBackend(s, defaultBackend).(tableVersion := 0, gslbVersion := 0, clock := 0)
  }

  lemma AddDefaultIsAside(s: ClusterState, defaultBackend: string, ep: Option<Endpoints>)
    requires DefaultClusterName(defaultBackend) !in s.table ==> DefaultClusterName(defaultBackend) !in s.gslb
    ensures ExceptDefault(AddDefaultBackend(s, defaultBackend, ep), defaultBackend) == ExceptDefault(s, defaultBackend)
  {
    hide DefaultClusterName; hide NewSubCluster;
    var d := DefaultClusterName(defaultBackend);
    var s' := AddDefaultBackend(s, defaultBackend, ep);
    SameExceptPair(s.service2Cluster, defaultBackend, d);
    assert s'.table - {d} == s.table - {d} && s'.gslb - {d} == s.gslb - {d};
  }

  lemma SameExceptPair(m: Multimap<string, string>, k: string, v: string)
    ensures Remove(Put(m, k, v), k, v) == Remove(m, k, v)
    ensures Remove(Remove(m, k, v), k, v) == Remove(m, k, v)
  {
    hide *;
    forall k', v'
      ensures Has(Remove(Put(m, k, v), k, v), k', v') <==> Has(Remove(m, k, v), k', v')
      ensures Has(Remove(Remove(m, k, v), k, v), k', v') <==> Has(Remove(m, k, v), k', v')
    {
      PutHas(m, k, v, k', v');
      RemoveHas(Put(m, k, v), k, v, k', v');
      RemoveHas(m, k, v, k', v');
      RemoveHas(Remove(m, k, v), k, v, k', v');
    }
    SameHas(Remove(Put(m, k, v), k, v), Remove(m, k, v));
    SameHas(Remove(Remove(m, k, v), k, v), Remove(m, k, v));
  }

  /** No stale entry leads one of the services about to be written to one of the clusters about to be created. */
  ghost predicate NothingStale(s: ClusterState, ingress: Ingress, balance: Balance) {
    forall c, svcs, svc :: !StaleEntry(s, ingress, balance, c, svcs, svc)
  }

  ghost predicate StaleEntry(s: ClusterState, ingress: Ingress, balance: Balance, c: string, svcs: set<string>, svc: string) {
    Writes(ingress, HostPaths(ingress.rules), balance, c, svcs) && svc in svcs && Has(s.service2Cluster, svc, c)
  }

  /** The paths of a fresh ingress, applied and dropped again. */
  function ApplyAndDrop(s: ClusterState, ingress: Ingress, balance: Balance,
                        services: map<string, Service>, endpoints: map<string, Endpoints>): ClusterState {
    Drop(ApplyPaths(s, ingress, HostPaths(ingress.rules), balance, services, endpoints), NamespacedName(ingress.namespace, ingress.name))
  }

  lemma ApplyAndDropAt(s: ClusterState, defaultBackend: string, ingress: Ingress, balance: Balance,
                       services: map<string, Service>, endpoints: map<string, Endpoints>, c: string)
    requires Inv(s, defaultBackend) && NamesOk(ingress) && BalanceOk(balance)
    requires NamespacedName(ingress.namespace, ingress.name) !in s.ingress2Cluster
    ensures var s' := ApplyAndDrop(s, ingress, balance, services, endpoints);
            && Get(s'.table, c) == Get(s.table, c) && Get(s'.gslb, c) == Get(s.gslb, c)
            && (forall i :: Has(s'.ingress2Cluster, i, c) <==> Has(s.ingress2Cluster, i, c))
            && (forall svc :: Has(s'.service2Cluster, svc, c) <==>
                  Has(s.service2Cluster, svc, c) &&
                  !exists svcs :: Writes(ingress, HostPaths(ingress.rules), balance, c, svcs) && svc in svcs)
  {
    hide Inv; hide ApplyPaths; hide HostPaths; hide ClustersOf; hide Writes; hide NamesOk; hide BackendsOk; hide BalanceOk; hide NamespacedName; hide Drop; hide Has;
    hide ApplyAndDrop;
    var paths, n := HostPaths(ingress.rules), NamespacedName(ingress.namespace, ingress.name);
    NamesOfIngress(ingress);
    PathsOk(ingress);
    var svcs := WrittenServices(ingress, paths, balance, c);
    ApplyPathsAt(s, ingress, paths, balance, services, endpoints, c, svcs);
    FreshCluster(s, defaultBackend, ingress, paths, c);
    DropAt(ApplyPaths(s, ingress, paths, balance, services, endpoints), n, c);
    AppliedAndDropped(s, ingress, balance, services, endpoints);
  }

  lemma NamesOfIngress(ingress: Ingress)
    requires NamesOk(ingress)
    ensures KubeName(ingress.namespace) && KubeName(ingress.name)
  {
  }

  lemma AppliedAndDropped(s: ClusterState, ingress: Ingress, balance: Balance,
                          services: map<string, Service>, endpoints: map<string, Endpoints>)
    ensures ApplyAndDrop(s, ingress, balance, services, endpoints) ==
            Drop(ApplyPaths(s, ingress, HostPaths(ingress.rules), balance, services, endpoints), NamespacedName(ingress.namespace, ingress.name))
  {
    hide ApplyPaths; hide HostPaths; hide NamespacedName; hide Drop;
  }

  lemma DropAt(s: ClusterState, i: string, c: string)
    ensures var s' := Drop(s, i);
            && Get(s'.table, c) == (if Has(s.ingress2Cluster, i, c) then None else Get(s.table, c))
            && Get(s'.gslb, c) == (if Has(s.ingress2Cluster, i, c) then None else Get(s.gslb, c))
            && (forall j :: Has(s'.ingress2Cluster, j, c) <==> Has(s.ingress2Cluster, j, c) && j != i)
            && (forall svc :: Has(s'.service2Cluster, svc, c) <==>
                  Has(s.service2Cluster, svc, c) && !(Has(s.ingress2Cluster, i, c) && c in s.table && svc in s.table[c]))
  {
    hide WithoutListed;
    var cs := Values(s.ingress2Cluster, i);
    forall svc
      ensures Has(WithoutListed(s.service2Cluster, s.table, cs), svc, c) <==>
              Has(s.service2Cluster, svc, c) && !(c in cs && c in s.table && svc in s.table[c])
    {
      WithoutListedHas(s.service2Cluster, s.table, cs, svc, c);
    }
  }

  /** The clusters of an ingress that owns none are in neither table. */
  lemma FreshCluster(s: ClusterState, defaultBackend: string, ingress: Ingress, paths: seq<(string, HttpPath)>, c: string)
    requires Inv(s, defaultBackend) && KubeName(ingress.namespace) && KubeName(ingress.name)
    requires NamespacedName(ingress.namespace, ingress.name) !in s.ingress2Cluster
    ensures c in ClustersOf(ingress, paths) ==> c !in s.table && c !in s.gslb
    ensures !Has(s.ingress2Cluster, NamespacedName(ingress.namespace, ingress.name), c)
  {
    if i :| 0 <= i < |paths| && c == ClusterOf(ingress, paths[i].1.backend) {
      OwnerOfClusterName(ingress.namespace, ingress.name, paths[i].1.backend, defaultBackend);
      hide ClusterOf; hide OwnerOf; hide NamespacedName; hide DefaultClusterName; hide GslbOk;
      assert c in s.table ==> Has(s.ingress2Cluster, OwnerOf(c), c);
    }
  }

  /** Applying and dropping restores both tables and the ingress index, and the service index exactly when
      nothing stale was there before. */
  lemma ApplyAndDropRestores(s: ClusterState, defaultBackend: string, ingress: Ingress, balance: Balance,
                             services: map<string, Service>, endpoints: map<string, Endpoints>)
    requires Inv(s, defaultBackend) && NamesOk(ingress) && BalanceOk(balance)
    requires NamespacedName(ingress.namespace, ingress.name) !in s.ingress2Cluster
    ensures var s' := ApplyAndDrop(s, ingress, balance, services, endpoints);
            && s'.table == s.table && s'.gslb == s.gslb && s'.ingress2Cluster == s.ingress2Cluster
            && (s'.service2Cluster == s.service2Cluster <==> NothingStale(s, ingress, balance))
  {
    hide Inv; hide ApplyAndDrop; hide NamesOk; hide BalanceOk; hide NamespacedName; hide Writes; hide HostPaths;
    var s' := ApplyAndDrop(s, ingress, balance, services, endpoints);
    forall c
      ensures Get(s'.table, c) == Get(s.table, c) && Get(s'.gslb, c) == Get(s.gslb, c)
    {
      ApplyAndDropAt(s, defaultBackend, ingress, balance, services, endpoints, c);
    }
    forall i, c
      ensures Has(s'.ingress2Cluster, i, c) <==> Has(s.ingress2Cluster, i, c)
    {
      ApplyAndDropAt(s, defaultBackend, ingress, balance, services, endpoints, c);
    }
    forall svc, c
      ensures Has(s'.service2Cluster, svc, c) <==>
                Has(s.service2Cluster, svc, c) &&
                !exists svcs :: Writes(ingress, HostPaths(ingress.rules), balance, c, svcs) && svc in svcs
    {
      ApplyAndDropAt(s, defaultBackend, ingress, balance, services, endpoints, c);
    }
    SameMap(s'.table, s.table);
    SameMap(s'.gslb, s.gslb);
    SameHas(s'.ingress2Cluster, s.ingress2Cluster);
    if NothingStale(s, ingress, balance) {
      forall c, svc, svcs | Writes(ingress, HostPaths(ingress.rules), balance, c, svcs) && svc in svcs
        ensures !Has(s.service2Cluster, svc, c)
      {
        assert !StaleEntry(s, ingress, balance, c, svcs, svc);
      }
      SameHas(s'.service2Cluster, s.service2Cluster);
    } else {
      var c, svcs, svc :| StaleEntry(s, ingress, balance, c, svcs, svc);
      assert !Has(s'.service2Cluster, svc, c);
    }
  }

  lemma SameMap<V>(m: map<string, V>, n: map<string, V>)
    requires forall c :: Get(m, c) == Get(n, c)
    ensures m == n
  {
    forall c
      ensures c in m <==> c in n
      ensures c in m ==> m[c] == n[c]
    {
      assert Get(m, c) == Get(n, c);
    }
  }

  lemma SameHas(m: Multimap<string, string>, n: Multimap<string, string>)
    requires forall k, v :: Has(m, k, v) <==> Has(n, k, v)
    ensures m == n
  {
    forall k
      ensures Values(m, k) == Values(n, k)
    {
      forall v
        ensures v in Values(m, k) <==> v in Values(n, k)
      {
        assert Has(m, k, v) <==> Has(n, k, v);
      }
    }
    SameAssociations(m, n);
  }

  /** The same up to the default backend and the version stamps. */
  ghost predicate SameAside(x: ClusterState, y: ClusterState, defaultBackend: string) {
    ExceptDefault(x, defaultBackend) == ExceptDefault(y, defaultBackend)
  }

  function Drop(s: ClusterState, i: string): ClusterState {
    DropClusters(s, Values(s.ingress2Cluster, i)).(ingress2Cluster := RemoveKey(s.ingress2Cluster, i))
  }

  lemma AsideParts(x: ClusterState, y: ClusterState, defaultBackend: string)
    requires SameAside(x, y, defaultBackend)
    ensures var d := DefaultClusterName(defaultBackend);
            x.ingress2Cluster == y.ingress2Cluster && x.table - {d} == y.table - {d} && x.gslb - {d} == y.gslb - {d}
  {
    hide DefaultClusterName; hide Remove;
    assert ExceptDefault(x, defaultBackend).table == ExceptDefault(y, defaultBackend).table;
    assert ExceptDefault(x, defaultBackend).gslb == ExceptDefault(y, defaultBackend).gslb;
    assert ExceptDefault(x, defaultBackend).ingress2Cluster == ExceptDefault(y, defaultBackend).ingress2Cluster;
  }

  lemma DroppedAside<V>(m: map<string, V>, n: map<string, V>, d: string, cs: set<string>)
    requires m - {d} == n - {d}
    ensures m - cs - {d} == n - cs - {d}
  {
    assert m - cs - {d} == m - {d} - cs && n - cs - {d} == n - {d} - cs;
  }

  lemma DropRespectsAside(x: ClusterState, y: ClusterState, defaultBackend: string, i: string)
    requires SameAside(x, y, defaultBackend)
    requires DefaultClusterName(defaultBackend) !in Values(x.ingress2Cluster, i)
    ensures SameAside(Drop(x, i), Drop(y, i), defaultBackend)
  {
    hide DefaultClusterName; hide WithoutListed; hide Remove; hide Has;
    var d := DefaultClusterName(defaultBackend);
    var cs := Values(x.ingress2Cluster, i);
    AsideParts(x, y, defaultBackend);
    DroppedAside(x.table, y.table, d, cs);
    DroppedAside(x.gslb, y.gslb, d, cs);
    forall svc, c
      ensures Has(Remove(WithoutListed(x.service2Cluster, x.table, cs), defaultBackend, d), svc, c) <==>
              Has(Remove(WithoutListed(y.service2Cluster, y.table, cs), defaultBackend, d), svc, c)
    {
      ListedAside(x, y, defaultBackend, cs, svc, c);
    }
    SameHas(Remove(WithoutListed(x.service2Cluster, x.table, cs), defaultBackend, d),
            Remove(WithoutListed(y.service2Cluster, y.table, cs), defaultBackend, d));
  }

  lemma ListedAside(x: ClusterState, y: ClusterState, defaultBackend: string, cs: set<string>, svc: string, c: string)
    requires SameAside(x, y, defaultBackend) && DefaultClusterName(defaultBackend) !in cs
    ensures var d := DefaultClusterName(defaultBackend);
            Has(Remove(WithoutListed(x.service2Cluster, x.table, cs), defaultBackend, d), svc, c) <==>
            Has(Remove(WithoutListed(y.service2Cluster, y.table, cs), defaultBackend, d), svc, c)
  {
    hide DefaultClusterName;
    hide WithoutListed; hide Remove; hide Has;
    var d := DefaultClusterName(defaultBackend);
    assert x.table - {d} == y.table - {d};
    assert Remove(x.service2Cluster, defaultBackend, d) == Remove(y.service2Cluster, defaultBackend, d);
    RemoveHas(x.service2Cluster, defaultBackend, d, svc, c);
    RemoveHas(y.service2Cluster, defaultBackend, d, svc, c);
    RemoveHas(WithoutListed(x.service2Cluster, x.table, cs), defaultBackend, d, svc, c);
    RemoveHas(WithoutListed(y.service2Cluster, y.table, cs), defaultBackend, d, svc, c);
    WithoutListedHas(x.service2Cluster, x.table, cs, svc, c);
    WithoutListedHas(y.service2Cluster, y.table, cs, svc, c);
    assert c in cs ==> (c in x.table <==> c in x.table - {d}) && (c in y.table <==> c in y.table - {d});
    assert c in cs && c in x.table ==> x.table[c] == (x.table - {d})[c];
    assert c in cs && c in y.table ==> y.table[c] == (y.table - {d})[c];
  }

  lemma DelDefaultIsAside(s: ClusterState, defaultBackend: string)
    ensures SameAside(DelDefaultBackend(s, defaultBackend), s, defaultBackend)
    ensures SameAside(SetVersion(s), s, defaultBackend)
  {
    hide DefaultClusterName;
    var d := DefaultClusterName(defaultBackend);
    SameExceptPair(s.service2Cluster, defaultBackend, d);
    assert s.table - {d} - {d} == s.table - {d} && s.gslb - {d} - {d} == s.gslb - {d};
  }

  lemma NothingToDrop(s: ClusterState, i: string)
    requires i !in s.ingress2Cluster
    ensures Drop(s, i) == s
  {
    forall svc, c
      ensures Has(WithoutListed(s.service2Cluster, s.table, {}), svc, c) <==> Has(s.service2Cluster, svc, c)
    {
      WithoutListedHas(s.service2Cluster, s.table, {}, svc, c);
    }
    SameHas(WithoutListed(s.service2Cluster, s.table, {}), s.service2Cluster);
    assert s.table - {} == s.table && s.gslb - {} == s.gslb && RemoveKey(s.ingress2Cluster, i) == s.ingress2Cluster;
  }

  lemma DeleteIsDropAside(s: ClusterState, defaultBackend: string, namespace: string, name: string)
    ensures SameAside(DeleteIngress(s, defaultBackend, namespace, name), Drop(s, NamespacedName(namespace, name)), defaultBackend)
  {
    hide ExceptDefault; hide DropClusters; hide DelDefaultBackend;
    var i := NamespacedName(namespace, name);
    var dropped := Drop(s, i);
    if i in s.ingress2Cluster {
      DelDefaultIsAside(dropped, defaultBackend);
      DelDefaultIsAside(DelDefaultBackend(dropped, defaultBackend), defaultBackend);
    } else {
      NothingToDrop(s, i);
    }
  }

  /** Update and delete of an ingress, as two events. */
  function UpdateThenDelete(s: ClusterState, defaultBackend: string, ingress: Ingress, balance: Balance,
                            services: map<string, Service>, endpoints: map<string, Endpoints>, checkOk: bool): ClusterState {
    DeleteIngress(UpdateIngress(s, defaultBackend, ingress, balance, services, endpoints, checkOk).0,
                  defaultBackend, ingress.namespace, ingress.name)
  }

  lemma UpdateThenDeleteIsApplyAndDrop(s: ClusterState, defaultBackend: string, ingress: Ingress, balance: Balance,
                                       services: map<string, Service>, endpoints: map<string, Endpoints>, checkOk: bool)
    requires Inv(s, defaultBackend) && NamesOk(ingress) && BalanceOk(balance) && ingress.rules != []
    ensures SameAside(UpdateThenDelete(s, defaultBackend, ingress, balance, services, endpoints, checkOk),
                      ApplyAndDrop(s, ingress, balance, services, endpoints), defaultBackend)
  {
    hide Inv; hide ApplyPaths; hide AddDefaultBackend; hide HostPaths; hide DefaultClusterName; hide NamespacedName;
    hide DeleteIngress; hide ExceptDefault; hide DropClusters; hide SameAside;
    var i := NamespacedName(ingress.namespace, ingress.name);
    var applied := ApplyPaths(s, ingress, HostPaths(ingress.rules), balance, services, endpoints);
    ApplyPathsKeepInv(s, defaultBackend, ingress, HostPaths(ingress.rules), balance, services, endpoints);
    var s1 := if defaultBackend == "" then applied
              else AddDefaultBackend(applied, defaultBackend, Get(endpoints, defaultBackend));
    DefaultAddedIsAside(applied, defaultBackend, Get(endpoints, defaultBackend), i);
    SameAsideReflexive(applied, defaultBackend);
    DeleteAfterUpdate(s1, applied, defaultBackend, ingress.namespace, ingress.name);
  }

  lemma SameAsideReflexive(s: ClusterState, defaultBackend: string)
    ensures SameAside(s, s, defaultBackend)
  {
  }

  lemma DefaultAddedIsAside(s: ClusterState, defaultBackend: string, ep: Option<Endpoints>, i: string)
    requires Inv(s, defaultBackend)
    ensures SameAside(AddDefaultBackend(s, defaultBackend, ep), s, defaultBackend)
    ensures AddDefaultBackend(s, defaultBackend, ep).ingress2Cluster == s.ingress2Cluster
    ensures DefaultClusterName(defaultBackend) !in Values(s.ingress2Cluster, i)
  {
    AddDefaultIsAside(s, defaultBackend, ep);
    assert !Has(s.ingress2Cluster, i, DefaultClusterName(defaultBackend));
  }

  lemma DeleteAfterUpdate(x: ClusterState, y: ClusterState, defaultBackend: string, namespace: string, name: string)
    requires SameAside(x, y, defaultBackend)
    requires DefaultClusterName(defaultBackend) !in Values(x.ingress2Cluster, NamespacedName(namespace, name))
    ensures SameAside(DeleteIngress(SetVersion(x), defaultBackend, namespace, name), Drop(y, NamespacedName(namespace, name)), defaultBackend)
    ensures SameAside(DeleteIngress(DeleteIngress(x, defaultBackend, namespace, name), defaultBackend, namespace, name),
                      Drop(y, NamespacedName(namespace, name)), defaultBackend)
  {
    hide DeleteIngress; hide ExceptDefault; hide DropClusters; hide DefaultClusterName; hide NamespacedName;
    var i := NamespacedName(namespace, name);
    DropRespectsAside(x, y, defaultBackend, i);
    DelDefaultIsAside(x, defaultBackend);
    DropRespectsAside(SetVersion(x), x, defaultBackend, i);
    DeleteIsDropAside(x, defaultBackend, namespace, name);
    DeleteIsDropAside(SetVersion(x), defaultBackend, namespace, name);
    DeleteTwice(x, defaultBackend, namespace, name);
  }

  lemma DeleteTwice(s: ClusterState, defaultBackend: string, namespace: string, name: string)
    ensures DeleteIngress(DeleteIngress(s, defaultBackend, namespace, name), defaultBackend, namespace, name) ==
            DeleteIngress(s, defaultBackend, namespace, name)
  {
  }

  /** Undo, default backend aside: after update and delete of a fresh ingress both tables and the ingress index are as
      before, and so is the service index exactly when it held no stale entry for the new clusters. */
  lemma Undo(s: ClusterState, defaultBackend: string, ingress: Ingress, balance: Balance,
             services: map<string, Service>, endpoints: map<string, Endpoints>, checkOk: bool)
    requires Inv(s, defaultBackend) && NamesOk(ingress) && BalanceOk(balance) && ingress.rules != []
    requires NamespacedName(ingress.namespace, ingress.name) !in s.ingress2Cluster
    ensures var before := ExceptDefault(s, defaultBackend);
            var after := ExceptDefault(UpdateThenDelete(s, defaultBackend, ingress, balance, services, endpoints, checkOk), defaultBackend);
            && after.table == before.table && after.gslb == before.gslb && after.ingress2Cluster == before.ingress2Cluster
            && (after.service2Cluster == before.service2Cluster <==> NothingStale(s, ingress, balance))
  {
    hide UpdateThenDelete; hide Inv;
    UpdateThenDeleteIsApplyAndDrop(s, defaultBackend, ingress, balance, services, endpoints, checkOk);
    ApplyAndDropRestores(s, defaultBackend, ingress, balance, services, endpoints);
    if !NothingStale(s, ingress, balance) {
      StaleIsNotDefault(s, defaultBackend, ingress, balance, services, endpoints);
    }
  }

  lemma StaleIsNotDefault(s: ClusterState, defaultBackend: string, ingress: Ingress, balance: Balance,
                          services: map<string, Service>, endpoints: map<string, Endpoints>)
    requires Inv(s, defaultBackend) && NamesOk(ingress) && BalanceOk(balance) && !NothingStale(s, ingress, balance)
    requires NamespacedName(ingress.namespace, ingress.name) !in s.ingress2Cluster
    ensures ExceptDefault(ApplyAndDrop(s, ingress, balance, services, endpoints), defaultBackend).service2Cluster !=
            ExceptDefault(s, defaultBackend).service2Cluster
  {
    var d := DefaultClusterName(defaultBackend);
    var paths := HostPaths(ingress.rules);
    var c, svcs, svc :| StaleEntry(s, ingress, balance, c, svcs, svc);
    var i :| 0 <= i < |paths| && WritesAt(ingress, paths[i].1.backend, balance, c, svcs);
    OwnerOfClusterName(ingress.namespace, ingress.name, paths[i].1.backend, defaultBackend);
    ApplyAndDropAt(s, defaultBackend, ingress, balance, services, endpoints, c);
    var m := ApplyAndDrop(s, ingress, balance, services, endpoints).service2Cluster;
    RemoveHas(m, defaultBackend, d, svc, c);
    RemoveHas(s.service2Cluster, defaultBackend, d, svc, c);
  }
}
