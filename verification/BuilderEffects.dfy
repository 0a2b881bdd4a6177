/** What the steps of ConfigBuilder leave behind: the cluster behind every rule, nothing of a deleted ingress, and the
    effect of a failed update. */
module BuilderEffects {
  import opened Multimaps
  import opened Kube
  import opened Names
  import opened RouteRules
  import opened Reloads
  import opened Builder
  import BuilderRuns
  import ServerData
  import ServerInvariants
  import Clusters
  import ClusterInvariants
  import Tls

  // ---------------------------------------------------------------- where rules come from

  /** c is the cluster of one of the paths. */
  ghost predicate OwnCluster(ingress: Ingress, paths: seq<(string, HttpPath)>, c: string) {
    exists k :: 0 <= k < |paths| && c == ClusterName(ServerData.IngressName(ingress), paths[k].1.backend)
  }

  lemma OwnClusterStep(ingress: Ingress, paths: seq<(string, HttpPath)>, c: string)
    requires paths != []
    ensures OwnCluster(ingress, paths, c) <==>
            OwnCluster(ingress, paths[..|paths| - 1], c) || c == ClusterName(ServerData.IngressName(ingress), paths[|paths| - 1].1.backend)
  {
  }

  lemma {:induction false} AddedRules(c: Cache, ingress: Ingress, paths: seq<(string, HttpPath)>, address: nat, r: Rule)
    requires RouteRules.Inv(c) && Live(ServerData.UpdateCache(c, ingress, paths, address).0, r)
    ensures Live(c, r) || (r.ingress == ServerData.IngressName(ingress) && OwnCluster(ingress, paths, r.cluster))
  {
    if paths != [] {
      var front, last := paths[..|paths| - 1], paths[|paths| - 1];
      var (c1, ok) := ServerData.UpdateCache(c, ingress, front, address);
      ServerInvariants.UpdateCacheFacts(c, ingress, front, address);
      var rule := ServerData.RuleOf(ingress, last.0, last.1, address + |paths| - 1);
      OwnClusterStep(ingress, paths, r.cluster);
      hide OwnCluster; hide RouteRules.Inv; hide Live; hide ServerData.CheckHost; hide ServerData.CheckPath; hide ClusterName;
      if ok && ServerData.CheckHost(last.0) && ServerData.CheckPath(last.1.path) {
        ServerInvariants.PutLive(c1, rule, r);
      }
      hide RouteRules.Put; hide ServerData.RuleOf;
      if r != rule {
        AddedRules(c, ingress, front, address, r);
      }
    }
  }

  /** A rule that is live after an update is an older one of another ingress, or routes a path of the updated one. */
  lemma UpdatedRules(s: ServerData.ServerState, defaultBackend: string, ingress: Ingress, how: ServerData.Rendering, r: Rule)
    requires RouteRules.Inv(s.cache) && ingress.rules != []
    ensures var (s', ok) := ServerData.UpdateIngress(s, defaultBackend, ingress, how);
            Live(s'.cache, r) ==> (Live(s.cache, r) && r.ingress != ServerData.IngressName(ingress)) || (ok && r.ingress == ServerData.IngressName(ingress) && OwnCluster(ingress, HostPaths(ingress.rules), r.cluster))
  {
    hide RouteRules.Inv; hide Live; hide RouteRules.Delete; hide ServerData.UpdateCache; hide HostPaths; hide OwnCluster;
    hide ServerData.Render; hide ServerData.Configured; hide ServerData.IngressName;
    var name := ServerData.IngressName(ingress);
    var deleted := if name in s.cache.ingress2Rule then RouteRules.Delete(s.cache, name) else s.cache;
    ServerInvariants.DeleteLiveAll(s.cache, name);
    ServerInvariants.AfterUpdateCacheFacts(s, ingress);
    var c := ServerData.AfterUpdateCache(s, ingress).0.cache;
    ServerInvariants.DeleteLiveAll(c, name);
    assert c == ServerData.UpdateCache(deleted, ingress, HostPaths(ingress.rules), s.nextAddress).0;
    if Live(c, r) {
      AddedRules(deleted, ingress, HostPaths(ingress.rules), s.nextAddress, r);
      if name !in s.cache.ingress2Rule && Live(s.cache, r) {
        ServerInvariants.UnindexedHasNoRule(s.cache, name, r);
      }
    }
  }

  // ---------------------------------------------------------------- which clusters an update owns

  lemma {:induction false} PathsOwned(s: Clusters.ClusterState, ingress: Ingress, paths: seq<(string, HttpPath)>, balance: Balance,
                                      services: map<string, Service>, endpoints: map<string, Endpoints>, j: string, c: string)
    ensures Has(Clusters.ApplyPaths(s, ingress, paths, balance, services, endpoints).ingress2Cluster, j, c) <==>
            Has(s.ingress2Cluster, j, c) || (j == ServerData.IngressName(ingress) && OwnCluster(ingress, paths, c))
  {
    if paths != [] {
      var front, name := paths[..|paths| - 1], ServerData.IngressName(ingress);
      OwnClusterStep(ingress, paths, c);
      PathsOwned(s, ingress, front, balance, services, endpoints, j, c);
      var last := ClusterName(name, paths[|paths| - 1].1.backend);
      PutHas(Clusters.ApplyPaths(s, ingress, front, balance, services, endpoints).ingress2Cluster, name, last, j, c);
      hide OwnCluster; hide NamespacedName; hide ClusterName; hide Multimaps.Put; hide Has; hide Clusters.NewClusterBackend; hide Clusters.NewGslbCluster; hide Multimaps.PutAll;
    }
  }

  /** An accepted update adds the clusters of its paths to its own; a rejected one leaves it none. No other ingress is affected. */
  lemma UpdatedOwners(s: Clusters.ClusterState, defaultBackend: string, ingress: Ingress, balance: Balance,
                      services: map<string, Service>, endpoints: map<string, Endpoints>, checkOk: bool, j: string, c: string)
    requires ingress.rules != []
    ensures var (s', ok) := Clusters.UpdateIngress(s, defaultBackend, ingress, balance, services, endpoints, checkOk);
            Has(s'.ingress2Cluster, j, c) <==>
            if j != ServerData.IngressName(ingress) then Has(s.ingress2Cluster, j, c)
            else ok && (Has(s.ingress2Cluster, j, c) || OwnCluster(ingress, HostPaths(ingress.rules), c))
  {
    hide OwnCluster; hide NamespacedName; hide Clusters.ApplyPaths; hide HostPaths; hide Clusters.DeleteIngress; hide Clusters.NewSubCluster; hide Has;
    var paths := HostPaths(ingress.rules);
    var applied := Clusters.ApplyPaths(s, ingress, paths, balance, services, endpoints);
    var s' := if defaultBackend == "" then applied
              else Clusters.AddDefaultBackend(applied, defaultBackend, Clusters.Get(endpoints, defaultBackend));
    PathsOwned(s, ingress, paths, balance, services, endpoints, j, c);
    DeletedOwners(s', defaultBackend, ingress.namespace, ingress.name, j, c);
    assert s'.ingress2Cluster == applied.ingress2Cluster;
  }

  /** An accepted update only adds: the cluster of a path that is gone stays in all tables. So the ingress's clusters are those of
      its paths exactly when each cluster it had before is one of these. An ingress that has lost its rules keeps all its clusters. */
  lemma DroppedPathsStay(s: Clusters.ClusterState, defaultBackend: string, ingress: Ingress, balance: Balance,
                         services: map<string, Service>, endpoints: map<string, Endpoints>)
    requires ClusterInvariants.Inv(s, defaultBackend) && ClusterInvariants.BalanceOk(balance)
    requires KubeName(ingress.namespace) && KubeName(ingress.name)
    ensures var i, paths := ServerData.IngressName(ingress), HostPaths(ingress.rules);
            var s' := Clusters.UpdateIngress(s, defaultBackend, ingress, balance, services, endpoints, true).0;
            && (forall c :: Has(s'.ingress2Cluster, i, c) <==> Has(s.ingress2Cluster, i, c) || OwnCluster(ingress, paths, c))
            && (forall c :: Has(s'.ingress2Cluster, i, c) ==> c in s'.table)
            && ((forall c :: Has(s'.ingress2Cluster, i, c) <==> OwnCluster(ingress, paths, c)) <==>
                forall c :: Has(s.ingress2Cluster, i, c) ==> OwnCluster(ingress, paths, c))
  {
    hide OwnCluster; hide Has; hide HostPaths; hide Clusters.ApplyPaths; hide Clusters.AddDefaultBackend; hide OwnerOf; hide DefaultClusterName;
    hide ClusterInvariants.BalanceOk; hide KubeName;
    ClusterInvariants.UpdateIngressKeepsInv(s, defaultBackend, ingress, balance, services, endpoints, true);
    forall c
      ensures Has(Clusters.UpdateIngress(s, defaultBackend, ingress, balance, services, endpoints, true).0.ingress2Cluster, ServerData.IngressName(ingress), c) <==>
              Has(s.ingress2Cluster, ServerData.IngressName(ingress), c) || OwnCluster(ingress, HostPaths(ingress.rules), c)
    {
      if ingress.rules == [] {
        NoOwnCluster(ingress, c);
      } else {
        UpdatedOwners(s, defaultBackend, ingress, balance, services, endpoints, true, ServerData.IngressName(ingress), c);
      }
    }
  }

  lemma NoOwnCluster(ingress: Ingress, c: string)
    requires ingress.rules == []
    ensures !OwnCluster(ingress, HostPaths(ingress.rules), c)
  {
  }

  lemma DeletedOwners(s: Clusters.ClusterState, defaultBackend: string, namespace: string, name: string, j: string, c: string)
    ensures Has(Clusters.DeleteIngress(s, defaultBackend, namespace, name).ingress2Cluster, j, c) <==>
            j != NamespacedName(namespace, name) && Has(s.ingress2Cluster, j, c)
  {
    hide NamespacedName; hide RemoveKey; hide Clusters.WithoutListed;
    RemoveKeyHas(s.ingress2Cluster, NamespacedName(namespace, name), j, c);
  }

  lemma {:induction false} ServiceKeepsOwners(s: Clusters.ClusterState, defaultBackend: string, service: Service, ep: Option<Endpoints>, order: seq<string>)
    ensures Clusters.UpdateClusters(s, defaultBackend, service, ep, order).0.ingress2Cluster == s.ingress2Cluster
    decreases |order|
  {
    hide NamespacedName; hide ParsePort; hide Clusters.TargetPortOf; hide Clusters.NewSubCluster; hide Clusters.NewGslbCluster;
    if order != [] {
      var serviceName := NamespacedName(service.namespace, service.name);
      var port := Clusters.TargetPortOf(ParsePort(order[0]), service.ports);
      if !(port == NO_PORT && serviceName != defaultBackend) && order[0] in s.table {
        var s1 := s.(table := s.table[order[0] := s.table[order[0]][serviceName := Clusters.NewSubCluster(ep, port)]],
                     gslb := s.gslb[order[0] := Clusters.NewGslbCluster(service.namespace, service.name, map[])]);
        ServiceKeepsOwners(s1, defaultBackend, service, ep, order[1..]);
      }
    }
  }

  // ---------------------------------------------------------------- no rule without its cluster

  /** Every live rule's cluster belongs to its ingress, hence is in the cluster table. */
  ghost predicate Routable(x: State) {
    forall r :: Live(x.server.cache, r) ==> Has(x.cluster.ingress2Cluster, r.ingress, r.cluster)
  }

  lemma RoutableIsInTable(x: State, defaultBackend: string, r: Rule)
    requires Indexed(x, defaultBackend) && Routable(x) && Live(x.server.cache, r)
    ensures r.cluster in x.cluster.table && r.cluster != DefaultClusterName(defaultBackend) && OwnerOf(r.cluster) == r.ingress
  {
  }

  /** The rules and the clusters' owners that an update of ingress i may leave. */
  ghost predicate RulesFrom(x: State, u: Update, ok: bool, s': ServerData.ServerState) {
    var i := ServerData.IngressName(u.ingress);
    forall r :: Live(s'.cache, r) ==>
      (Live(x.server.cache, r) && r.ingress != i) || (ok && r.ingress == i && OwnCluster(u.ingress, HostPaths(u.ingress.rules), r.cluster))
  }

  ghost predicate OwnersTo(x: State, u: Update, ok: bool, cl: Clusters.ClusterState) {
    var i := ServerData.IngressName(u.ingress);
    forall j, c ::
      && (j != i ==> (Has(cl.ingress2Cluster, j, c) <==> Has(x.cluster.ingress2Cluster, j, c)))
      && (ok && OwnCluster(u.ingress, HostPaths(u.ingress.rules), c) ==> Has(cl.ingress2Cluster, i, c))
  }

  lemma StillRoutable(x: State, u: Update, ok: bool, s': ServerData.ServerState, cl: Clusters.ClusterState, t: Tls.TlsState)
    requires Routable(x) && RulesFrom(x, u, ok, s') && OwnersTo(x, u, ok, cl)
    ensures Routable(x.(server := s', cluster := cl, tls := t))
  {
  }

  lemma ServerRules(x: State, defaultBackend: string, u: Update, c: Choices)
    requires Indexed(x, defaultBackend) && u.ingress.rules != []
    ensures var (s, ok) := UpdateServer(x, defaultBackend, u, c);
            && RulesFrom(x, u, ok, s)
            && RulesFrom(x, u, false, ServerData.DeleteIngress(s, defaultBackend, u.ingress.namespace, u.ingress.name, c.undo))
  {
    hide RouteRules.Inv; hide ServerData.UpdateIngress; hide ServerData.DeleteIngress; hide Live; hide OwnCluster; hide HostPaths;
    var (s, ok) := UpdateServer(x, defaultBackend, u, c);
    AfterUpdateInv(x.server, defaultBackend, u.ingress, c.how);
    forall r | Live(s.cache, r)
      ensures (Live(x.server.cache, r) && r.ingress != ServerData.IngressName(u.ingress)) ||
              (ok && r.ingress == ServerData.IngressName(u.ingress) && OwnCluster(u.ingress, HostPaths(u.ingress.rules), r.cluster))
    {
      UpdatedRules(x.server, defaultBackend, u.ingress, c.how, r);
    }
    var undone := ServerData.DeleteIngress(s, defaultBackend, u.ingress.namespace, u.ingress.name, c.undo);
    forall r | Live(undone.cache, r)
      ensures Live(x.server.cache, r) && r.ingress != ServerData.IngressName(u.ingress)
    {
      ServerInvariants.DeleteIngressIsExact(s, defaultBackend, u.ingress.namespace, u.ingress.name, c.undo, r);
    }
  }

  lemma AfterUpdateInv(s: ServerData.ServerState, defaultBackend: string, ingress: Ingress, how: ServerData.Rendering)
    requires RouteRules.Inv(s.cache)
    ensures RouteRules.Inv(ServerData.UpdateIngress(s, defaultBackend, ingress, how).0.cache)
  {
    hide RouteRules.Inv; hide RouteRules.Delete; hide ServerData.AfterUpdateCache; hide ServerData.Render; hide ServerData.Configured;
    ServerInvariants.AfterUpdateCacheFacts(s, ingress);
    DeleteKeepsInv(ServerData.AfterUpdateCache(s, ingress).0.cache, ServerData.IngressName(ingress));
  }

  lemma ClusterOwners(x: State, defaultBackend: string, u: Update, c: Choices)
    requires u.ingress.rules != []
    ensures var (cl, ok) := UpdateCluster(x, defaultBackend, u, c);
            && OwnersTo(x, u, ok, cl)
            && OwnersTo(x, u, false, Clusters.DeleteIngress(cl, defaultBackend, u.ingress.namespace, u.ingress.name))
    ensures OwnersTo(x, u, false, x.cluster)
  {
    hide Clusters.UpdateIngress; hide Clusters.DeleteIngress; hide ClusterInvariants.EffectiveBalance; hide Has; hide OwnCluster; hide HostPaths;
    var (cl, ok) := UpdateCluster(x, defaultBackend, u, c);
    var balance := ClusterInvariants.EffectiveBalance(u.ingress.weights);
    var dropped := Clusters.DeleteIngress(cl, defaultBackend, u.ingress.namespace, u.ingress.name);
    forall j, k
      ensures j != ServerData.IngressName(u.ingress) ==> (Has(cl.ingress2Cluster, j, k) <==> Has(x.cluster.ingress2Cluster, j, k))
      ensures ok && OwnCluster(u.ingress, HostPaths(u.ingress.rules), k) ==> Has(cl.ingress2Cluster, ServerData.IngressName(u.ingress), k)
      ensures j != ServerData.IngressName(u.ingress) ==> (Has(dropped.ingress2Cluster, j, k) <==> Has(cl.ingress2Cluster, j, k))
    {
      UpdatedOwners(x.cluster, defaultBackend, u.ingress, balance, u.services, u.endpoints, c.checkOk, j, k);
      UpdatedOwners(x.cluster, defaultBackend, u.ingress, balance, u.services, u.endpoints, c.checkOk, ServerData.IngressName(u.ingress), k);
      DeletedOwners(cl, defaultBackend, u.ingress.namespace, u.ingress.name, j, k);
    }
  }

  lemma UpdateKeepsRoutable(x: State, defaultBackend: string, u: Update, c: Choices)
    requires Indexed(x, defaultBackend) && Routable(x)
    ensures Routable(UpdateIngress(x, defaultBackend, u, c).0)
  {
    var i, ns, n := ServerData.IngressName(u.ingress), u.ingress.namespace, u.ingress.name;
    var x' := UpdateIngress(x, defaultBackend, u, c).0;
    if u.ingress.rules == [] {
      NothingUpdated(x, defaultBackend, u, c);
    } else {
      ServerRules(x, defaultBackend, u, c);
      ClusterOwners(x, defaultBackend, u, c);
      var (s, ok1) := UpdateServer(x, defaultBackend, u, c);
      var undone := ServerData.DeleteIngress(s, defaultBackend, ns, n, c.undo);
      var (cl, ok2) := UpdateCluster(x, defaultBackend, u, c);
      var t := UpdateTls(x, u).0;
      hide Routable; hide RulesFrom; hide OwnersTo; hide UpdateServer; hide UpdateCluster; hide UpdateTls; hide ServerData.DeleteIngress; hide Clusters.DeleteIngress;
      match UpdateIngress(x, defaultBackend, u, c).1
      case ServerFailed => StillRoutable(x, u, false, s, x.cluster, x.tls);
      case ClusterFailed => StillRoutable(x, u, false, undone, cl, x.tls);
      case TlsFailed => StillRoutable(x, u, false, undone, Clusters.DeleteIngress(cl, defaultBackend, ns, n), t);
      case Done => StillRoutable(x, u, true, s, cl, t);
    }
  }

  /** Without rules only the secrets can go wrong, and then what the ingress had is deleted. */
  lemma NothingUpdated(x: State, defaultBackend: string, u: Update, c: Choices)
    requires Indexed(x, defaultBackend) && Routable(x) && u.ingress.rules == []
    ensures Routable(UpdateIngress(x, defaultBackend, u, c).0)
  {
    hide Routable; hide UpdateTls; hide ServerData.DeleteIngress; hide Clusters.DeleteIngress; hide Indexed;
    var t := UpdateTls(x, u).0;
    DeleteKeepsRoutable(x, defaultBackend, u.ingress.namespace, u.ingress.name, c.undo);
    SameRoutable(x, x.(tls := t));
    var undone := x.(server := ServerData.DeleteIngress(x.server, defaultBackend, u.ingress.namespace, u.ingress.name, c.undo),
                     cluster := Clusters.DeleteIngress(x.cluster, defaultBackend, u.ingress.namespace, u.ingress.name));
    SameRoutable(undone, undone.(tls := t));
  }

  lemma SameRoutable(x: State, x': State)
    requires Routable(x) && x'.server.cache == x.server.cache && x'.cluster.ingress2Cluster == x.cluster.ingress2Cluster
    ensures Routable(x')
  {
  }

  lemma DeleteKeepsRoutable(x: State, defaultBackend: string, namespace: string, name: string, how: ServerData.Rendering)
    requires Indexed(x, defaultBackend) && Routable(x)
    ensures Routable(x.(server := ServerData.DeleteIngress(x.server, defaultBackend, namespace, name, how),
                        cluster := Clusters.DeleteIngress(x.cluster, defaultBackend, namespace, name)))
  {
    hide ServerData.DeleteIngress; hide Clusters.DeleteIngress; hide Live; hide Has; hide RouteRules.Inv; hide ClusterInvariants.Inv; hide NamespacedName;
    var s' := ServerData.DeleteIngress(x.server, defaultBackend, namespace, name, how);
    var cl' := Clusters.DeleteIngress(x.cluster, defaultBackend, namespace, name);
    forall r | Live(s'.cache, r)
      ensures Has(cl'.ingress2Cluster, r.ingress, r.cluster)
    {
      ServerInvariants.DeleteIngressIsExact(x.server, defaultBackend, namespace, name, how, r);
      DeletedOwners(x.cluster, defaultBackend, namespace, name, r.ingress, r.cluster);
    }
  }

  lemma StepKeepsRoutable(x: State, defaultBackend: string, e: Event)
    requires Indexed(x, defaultBackend) && Routable(x)
    ensures Routable(Step(x, defaultBackend, e))
  {
    hide Routable; hide Indexed; hide UpdateIngress; hide ServerData.DeleteIngress; hide Clusters.DeleteIngress; hide Clusters.UpdateClusters;
    hide Tls.DeleteIngress; hide Tls.UpdateSecret; hide Tls.DeleteSecret; hide NamespacedName;
    match e
    case IngressUpdated(u, c) => UpdateKeepsRoutable(x, defaultBackend, u, c);
    case IngressDeleted(ns, n, how, env') =>
      DeleteKeepsRoutable(x, defaultBackend, ns, n, how);
      var deleted := x.(server := ServerData.DeleteIngress(x.server, defaultBackend, ns, n, how),
                        cluster := Clusters.DeleteIngress(x.cluster, defaultBackend, ns, n));
      SameRoutable(deleted, Step(x, defaultBackend, e));
    case ServiceUpdated(service, ep, order) =>
      ServiceKeepsOwners(x.cluster, defaultBackend, service, ep, order);
      SameRoutable(x, Step(x, defaultBackend, e));
    case ServiceDeleted(_, _) => SameRoutable(x, Step(x, defaultBackend, e));
    case SecretUpdated(_) => SameRoutable(x, Step(x, defaultBackend, e));
    case SecretDeleted(_, _, _) => SameRoutable(x, Step(x, defaultBackend, e));
    case Reloads(r) => SameRoutable(x, Step(x, defaultBackend, e));
  }

  lemma StartIsRoutable(version: Version, env: Env)
    ensures Routable(InitialState(version, env))
  {
  }

  /** After every possible run each live rule routes to a cluster that the cluster table has, under its own ingress: the rule
      cache and the cluster configuration never come apart, failed updates and their rollbacks included. */
  lemma {:induction false} EveryRunIsRoutable(version: Version, env: Env, defaultBackend: string, events: seq<Event>)
    requires PossibleRun(InitialState(version, env), defaultBackend, events)
    ensures Routable(RunFrom(InitialState(version, env), defaultBackend, events))
  {
    hide Routable; hide Indexed; hide Step; hide Possible;
    var start := InitialState(version, env);
    if events == [] {
      StartIsRoutable(version, env);
      return;
    }
    EveryRunIsRoutable(version, env, defaultBackend, events[..|events| - 1]);
    BuilderRuns.EveryRunKeepsIndexes(version, env, defaultBackend, events[..|events| - 1]);
    StepKeepsRoutable(RunFrom(start, defaultBackend, events[..|events| - 1]), defaultBackend, events[|events| - 1]);
  }

  // ---------------------------------------------------------------- deleting an ingress

  /** In any reachable state, after a failed update too: nothing of the deleted ingress is left, and every other ingress has the
      rules, the clusters and the secrets it had. */
  lemma DeleteIsExact(x: State, defaultBackend: string, namespace: string, name: string, how: ServerData.Rendering, env': Env,
                      r: Rule, c: string, secret: string)
    requires Indexed(x, defaultBackend) && c != DefaultClusterName(defaultBackend)
    ensures var i := NamespacedName(namespace, name); var x' := DeleteIngress(x, defaultBackend, namespace, name, how, env');
            && (Live(x'.server.cache, r) <==> Live(x.server.cache, r) && r.ingress != i)
            && i !in x'.cluster.ingress2Cluster && i !in x'.tls.ingress2secret
            && (OwnerOf(c) == i ==> c !in x'.cluster.table && c !in x'.cluster.gslb)
            && (OwnerOf(c) != i ==> Clusters.Get(x'.cluster.table, c) == Clusters.Get(x.cluster.table, c) &&
                                    Clusters.Get(x'.cluster.gslb, c) == Clusters.Get(x.cluster.gslb, c))
            && (forall j :: j != i ==> Values(x'.cluster.ingress2Cluster, j) == Values(x.cluster.ingress2Cluster, j)
                                       && Values(x'.tls.ingress2secret, j) == Values(x.tls.ingress2secret, j))
            && (secret in x'.tls.certs <==> secret in x.tls.certs && exists j :: j != i && Has(x.tls.ingress2secret, j, secret))
            && (secret in x'.tls.certs ==> x'.tls.certs[secret] == x.tls.certs[secret])
  {
    hide ServerData.DeleteIngress; hide Clusters.DeleteIngress; hide Live; hide RouteRules.Inv; hide ClusterInvariants.Inv; hide NamespacedName;
    hide OwnerOf; hide DefaultClusterName; hide Tls.Secrets; hide Tls.Collect;
    var i := NamespacedName(namespace, name);
    ServerInvariants.DeleteIngressIsExact(x.server, defaultBackend, namespace, name, how, r);
    ClusterInvariants.DeleteIngressIsExact(x.cluster, defaultBackend, namespace, name, c);
    if i in x.tls.ingress2secret {
      Tls.DeleteIngressIsExact(x.tls, namespace, name);
    } else if secret in x.tls.certs {
      CertIsReferenced(x.tls, secret);
    }
  }

  lemma CertIsReferenced(t: Tls.TlsState, secret: string)
    requires Tls.Inv(t) && secret in t.certs
    ensures exists j :: Has(t.ingress2secret, j, secret)
  {
    var j :| j in t.ingress2secret && secret in t.ingress2secret[j];
    assert Has(t.ingress2secret, j, secret);
  }
}
