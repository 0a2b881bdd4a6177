/** ClusterConfig (internal/bfeConfig/configs/clusterConfig.go) as the source writes it: four maps updated in
    place by nested loops, proved against the functions of Clusters. */
module ClusterConfig {
  import opened Multimaps
  import opened Kube
  import opened Names
  import opened Annotations
  import opened Clusters
  import opened ClusterInvariants
  import opened ClusterRuns
  import opened Reloads
  import opened Documents

  class ClusterConfig {
    const defaultBackend: string

    // what BFE is known to run
    var gslbVersion: Version
    var clusterTableVersion: Version

    var ingress2Cluster: Multimap<string, string>
    var service2Cluster: Multimap<string, string>

    var gslbConf: map<string, GslbCluster>
    var gslbTs: Version
    var clusterTableConf: map<string, ClusterBackend>
    var clusterTableConfVersion: Version

    var clock: Version

    ghost function State(): ClusterState
      reads this
    {
      ClusterState(ingress2Cluster, service2Cluster, clusterTableConf, gslbConf, clusterTableConfVersion, gslbTs, clock)
    }

    ghost function Active(): ClusterActive
      reads `gslbVersion, `clusterTableVersion
    {
      ClusterActive(gslbVersion, clusterTableVersion)
    }

    constructor (defaultBackend: string, version: Version)
      ensures State() == InitialState(version) && Active() == ClusterActive(0, 0) && this.defaultBackend == defaultBackend
    {
      this.defaultBackend := defaultBackend;
      gslbVersion, clusterTableVersion := 0, 0;
      ingress2Cluster, service2Cluster := map[], map[];
      gslbConf, gslbTs := map[], version;
      clusterTableConf, clusterTableConfVersion := map[], version;
      clock := version;
    }

    method SetVersion()
      modifies `gslbTs, `clusterTableConfVersion, `clock
      ensures State() == Clusters.SetVersion(old(State()))
    {
      clock := clock + 1;
      gslbTs := clock;
      clusterTableConfVersion := clock;
    }

    /** False is the error of a rejected cluster table; checkOk is the library's verdict. */
    method UpdateIngress(ingress: Ingress, services: map<string, Service>, endpoints: map<string, Endpoints>, checkOk: bool)
      returns (ok: bool)
      modifies `ingress2Cluster, `service2Cluster, `gslbConf, `gslbTs, `clusterTableConf, `clusterTableConfVersion, `clock
      ensures Updates(old(State()), defaultBackend, ingress, EffectiveBalance(ingress.weights), services, endpoints, checkOk, State(), ok)
    {
      hide *;
      ghost var s := State();
      if |ingress.rules| == 0 {
        NoRules(s, defaultBackend, ingress, EffectiveBalance(ingress.weights), services, endpoints, checkOk);
        return true;
      }
      var balance := ParsedBalance(ingress.weights);
      var rules := ingress.rules;
      NoPathsYet(s, ingress, balance, services, endpoints);
      for i := 0 to |rules|
        invariant AppliesPaths(s, ingress, HostPaths(rules[..i]), balance, services, endpoints, State())
      {
        RuleBegins(rules, i);
        for j := 0 to |rules[i].paths|
          invariant AppliesPaths(s, ingress, PathsUpTo(rules, i, j), balance, services, endpoints, State())
        {
          ghost var before := State();
          UpdatePath(ingress, rules[i].paths[j], balance, services, endpoints);
          OnePathMore(s, ingress, i, j, balance, services, endpoints, before, State());
        }
        RuleEnds(rules, i);
      }
      assert rules[..|rules|] == rules;
      ghost var applied := State();
      if |defaultBackend| > 0 {
        AddDefaultBackend(Get(endpoints, defaultBackend));
      }
      ghost var s' := State();
      if !checkOk {
        DeleteIngress(ingress.namespace, ingress.name);
        CheckRejects(s, applied, s', State(), defaultBackend, ingress, balance, services, endpoints);
        return false;
      }
      SetVersion();
      CheckAccepts(s, applied, s', State(), defaultBackend, ingress, balance, services, endpoints);
      return true;
    }

    /** balance, _ := GetBalance(...): the error is dropped. */
    static method ParsedBalance(annotation: BalanceAnnotation) returns (balance: Balance)
      ensures balance == EffectiveBalance(annotation)
    {
      var parsed := GetBalance(annotation);
      return match parsed case Some(b) => b case None => map[];
    }

    /** The body of UpdateIngress's loops: the cluster and subclusters of one path. */
    method UpdatePath(ingress: Ingress, path: HttpPath, balance: Balance,
                      services: map<string, Service>, endpoints: map<string, Endpoints>)
      modifies `ingress2Cluster, `service2Cluster, `gslbConf, `gslbTs, `clusterTableConf, `clusterTableConfVersion, `clock
      ensures AppliesPath(old(State()), ingress, path.backend, balance, services, endpoints, State())
    {
      hide Clusters.NewClusterBackend; hide NewGslbCluster; hide ClusterName; hide NamespacedName; hide Multimaps.Put;
      var ingressName := NamespacedName(ingress.namespace, ingress.name);
      var clusterName := ClusterName(ingressName, path.backend);
      var backends := NewClusterBackend(ingress.namespace, path.backend, balance, services, endpoints);
      clusterTableConf := clusterTableConf[clusterName := backends];
      var gslb := NewGslbClusterConf(ingress.namespace, path.backend.name, balance);
      gslbConf := gslbConf[clusterName := gslb];
      ingress2Cluster := Put(ingress2Cluster, ingressName, clusterName);
      service2Cluster := PutAll(service2Cluster, gslb.Keys, clusterName);
    }

    method AddDefaultBackend(ep: Option<Endpoints>)
      modifies `ingress2Cluster, `service2Cluster, `gslbConf, `gslbTs, `clusterTableConf, `clusterTableConfVersion, `clock
      ensures AddsDefault(old(State()), defaultBackend, ep, State())
    {
      if ep.None? || DefaultClusterName(defaultBackend) in clusterTableConf {
        return;
      }
      var instanceList := NewSubClusterBackend(ep, NO_PORT);
      if instanceList == Instances([]) {
        return;
      }
      clusterTableConf := clusterTableConf[DefaultClusterName(defaultBackend) := map[defaultBackend := instanceList]];
      gslbConf := gslbConf[DefaultClusterName(defaultBackend) := map[defaultBackend := DEFAULT_WEIGHT]];
      service2Cluster := Put(service2Cluster, defaultBackend, DefaultClusterName(defaultBackend));
    }

    method DeleteIngress(namespace: string, name: string)
      modifies `ingress2Cluster, `service2Cluster, `gslbConf, `gslbTs, `clusterTableConf, `clusterTableConfVersion, `clock
      ensures Deletes(old(State()), defaultBackend, namespace, name, State())
    {
      var ingressName := NamespacedName(namespace, name);
      if ingressName !in ingress2Cluster {
        return;
      }
      var clusters := ingress2Cluster[ingressName];
      ghost var s := State();
      var rest := clusters;
      ghost var dropped: set<string> := {};
      DropNone(s);
      hide DropClusters;
      while rest != {}
        invariant rest <= clusters && dropped == clusters - rest
        invariant State() == DropClusters(s, dropped)
      {
        var clusterName :| clusterName in rest;
        DeleteCluster(clusterName);
        DropOneMore(s, dropped, clusterName);
        rest := rest - {clusterName};
        dropped := dropped + {clusterName};
      }
      assert dropped == clusters && State().ingress2Cluster == s.ingress2Cluster;
      ingress2Cluster := RemoveKey(ingress2Cluster, ingressName);
      if |defaultBackend| > 0 && ingress2Cluster == map[] {
        DelDefaultBackend();
      }
      SetVersion();
    }

    /** The body of DeleteIngress's loop. */
    method DeleteCluster(clusterName: string)
      modifies `service2Cluster, `gslbConf, `clusterTableConf
      ensures State() == DropClusters(old(State()), {clusterName})
    {
      ghost var s := State();
      var services := if clusterName in clusterTableConf then clusterTableConf[clusterName].Keys else {};
      var rest := services;
      while rest != {}
        invariant rest <= services && clusterTableConf == s.table && gslbConf == s.gslb
        invariant forall svc, c :: Has(service2Cluster, svc, c) <==> Has(s.service2Cluster, svc, c) && !(svc in services - rest && c == clusterName)
      {
        var serviceName :| serviceName in rest;
        RemoveAllHas(service2Cluster, serviceName, clusterName);
        service2Cluster := Remove(service2Cluster, serviceName, clusterName);
        rest := rest - {serviceName};
      }
      clusterTableConf := clusterTableConf - {clusterName};
      gslbConf := gslbConf - {clusterName};
      DropOne(s, clusterName, service2Cluster);
    }

    method DelDefaultBackend()
      modifies `ingress2Cluster, `service2Cluster, `gslbConf, `gslbTs, `clusterTableConf, `clusterTableConfVersion, `clock
      ensures State() == Clusters.DelDefaultBackend(old(State()), defaultBackend)
    {
      service2Cluster := Remove(service2Cluster, defaultBackend, DefaultClusterName(defaultBackend));
      clusterTableConf := clusterTableConf - {DefaultClusterName(defaultBackend)};
      gslbConf := gslbConf - {DefaultClusterName(defaultBackend)};
    }

    /** Where the source would panic on the nil map the outcome is Crashed. */
    method UpdateService(service: Service, endpoint: Option<Endpoints>) returns (outcome: Outcome, ghost order: seq<string>)
      modifies `ingress2Cluster, `service2Cluster, `gslbConf, `gslbTs, `clusterTableConf, `clusterTableConfVersion, `clock
      ensures ServiceOrder(old(State()), service, order)
      ensures (State(), outcome) == Clusters.UpdateService(old(State()), defaultBackend, service, endpoint, order)
    {
      hide UpdateClusters; hide Clusters.DeleteService; hide NewSubCluster; hide ParsePort; hide TargetPortOf;
      var serviceName := NamespacedName(service.namespace, service.name);
      order := [];
      if serviceName !in service2Cluster {
        return Done, [];
      }
      ghost var s := State();
      var clusters := service2Cluster[serviceName];
      var rest := clusters;
      ghost var visited: set<string> := {};
      ReachedAtStart(s, defaultBackend, service, endpoint);
      NothingListed();
      hide Reached; hide NewGslbCluster;
      hide NamespacedName; hide Lists;
      while rest != {}
        invariant rest <= clusters && visited == clusters - rest
        invariant Lists(order, visited)
        invariant service2Cluster == s.service2Cluster
        invariant Reached(s, State(), defaultBackend, service, endpoint, order)
      {
        var name :| name in rest;
        ghost var done, before := order, State();
        ListsMore(order, visited, name);
        rest := rest - {name};
        visited := visited + {name};
        order := order + [name];
        var targetPort := GetTargetPort(ParsePort(name), Some(service));
        if targetPort == NO_PORT && serviceName != defaultBackend {
          DeleteService(service.namespace, service.name);
          order := Completed(s, order, clusters, rest);
          LoopStops(s, before, defaultBackend, service, endpoint, done, name, order);
          return Failed, order;
        }
        if name !in clusterTableConf {
          order := Completed(s, order, clusters, rest);
          LoopStops(s, before, defaultBackend, service, endpoint, done, name, order);
          return Crashed, order;
        }
        UpdateSubCluster(name, service, endpoint, targetPort);
        LoopContinues(s, before, State(), defaultBackend, service, endpoint, done, name);
      }
      assert visited == clusters;
      ReachedAtEnd(s, State(), defaultBackend, service, endpoint, order);
      SetVersion();
      return Done, order;
    }

    /** The body of UpdateService's loop. */
    method UpdateSubCluster(name: string, service: Service, endpoint: Option<Endpoints>, targetPort: TargetPort)
      requires name in clusterTableConf
      modifies `gslbConf, `clusterTableConf
      ensures name in old(State()).table && State() == Rewritten(old(State()), name, service, endpoint, targetPort)
    {
      var serviceName := NamespacedName(service.namespace, service.name);
      var instances := NewSubClusterBackend(endpoint, targetPort);
      clusterTableConf := clusterTableConf[name := clusterTableConf[name][serviceName := instances]];
      var gslb := NewGslbClusterConf(service.namespace, service.name, map[]);
      gslbConf := gslbConf[name := gslb];
    }

    /** The body of DeleteService's loop. */
    method DeleteSubCluster(c: string, serviceName: string)
      modifies this`clusterTableConf, this`gslbConf
      ensures clusterTableConf == DropFromTable(old(clusterTableConf), c, serviceName)
      ensures gslbConf == DropFromGslb(old(gslbConf), c, serviceName)
    {
      clusterTableConf := DropFromTable(clusterTableConf, c, serviceName);
      if c in gslbConf {
        var services := gslbConf[c] - {serviceName};
        gslbConf := gslbConf[c := services];
        if |services| == 0 {
          assert gslbConf - {c} == old(gslbConf) - {c};
          gslbConf := gslbConf - {c};
        }
      }
    }

    method DeleteService(namespace: string, name: string)
      modifies `ingress2Cluster, `service2Cluster, `gslbConf, `gslbTs, `clusterTableConf, `clusterTableConfVersion, `clock
      ensures State() == Clusters.DeleteService(old(State()), namespace, name)
    {
      hide PruneTable; hide PruneGslb; hide Clusters.DeleteService; hide DropFromTable; hide DropFromGslb; hide NamespacedName;
      var serviceName := NamespacedName(namespace, name);
      var clusters := Values(service2Cluster, serviceName);
      ghost var s := State();
      var rest := clusters;
      ghost var done: set<string> := {};
      PruneNothing(s.table, s.gslb, serviceName);
      PrunedIsDeleted(s, namespace, name);
      while rest != {}
        invariant rest <= clusters && done == clusters - rest
        invariant State() == s.(table := PruneTable(s.table, done, serviceName), gslb := PruneGslb(s.gslb, done, serviceName))
      {
        var c :| c in rest;
        DeleteSubCluster(c, serviceName);
        PruneStep(s.table, s.gslb, done, c, serviceName);
        rest := rest - {c};
        done := done + {c};
      }
      assert done == clusters;
      SetVersion();
    }

    method Reload(bfe: Bfe) returns (ok: bool)
      modifies `gslbVersion, `clusterTableVersion, bfe
      ensures State() == old(State())
      ensures Reloaded(ClusterDocs(State(), old(Active())), old(bfe.State()), bfe.State(), ok)
      ensures Active() == if ok then ClusterActivated(State()) else old(Active())
    {
      hide *;
      ghost var docs, env := ClusterDocs(State(), Active()), bfe.State();
      ClusterFiles(State(), Active());
      var reload;
      ok, reload := DumpFiles(bfe);
      if !ok {
        return false;
      }
      ghost var dumped := bfe.State();
      if reload {
        ok := bfe.ReloadBfe({GslbData, ClusterTableData});
        ReloadEnds(docs, 2, env, dumped, bfe.State(), ok);
        if !ok {
          return false;
        }
        Activate();
      } else {
        NothingToReload(docs, 2, env, dumped);
        CleanIsActive(State(), Active());
      }
      return true;
    }

    /** Dumps the files whose version is not the active one; reload says whether there was one. */
    method DumpFiles(bfe: Bfe) returns (ok: bool, reload: bool)
      modifies bfe
      ensures |ClusterDocs(State(), Active())| == 2
      ensures if ok then Dumped(ClusterDocs(State(), Active()), 2, old(bfe.State()), bfe.State(), reload)
              else Reloaded(ClusterDocs(State(), Active()), old(bfe.State()), bfe.State(), false)
    {
      hide Dumped; hide Apart; hide AllFiles; hide Reloaded; hide Bfe.State;
      ghost var docs, env := ClusterDocs(State(), Active()), bfe.State();
      ClusterFiles(State(), Active());
      DumpStarts(docs, env);
      ok, reload := bfe.DumpPart(docs, 0, env, false, gslbTs != gslbVersion, GslbData, Gslb(gslbTs, gslbConf));
      if ok {
        ok, reload := bfe.DumpPart(docs, 1, env, reload, clusterTableConfVersion != clusterTableVersion, ClusterTableData,
                                   ClusterTable(clusterTableConfVersion, clusterTableConf));
      }
    }

    method Activate()
      modifies `gslbVersion, `clusterTableVersion
      ensures State() == old(State()) && Active() == ClusterActivated(State())
    {
      gslbVersion := gslbTs;
      clusterTableVersion := clusterTableConfVersion;
    }

    static method NewClusterBackend(namespace: string, backend: ServiceBackend, balance: Balance,
                                    services: map<string, Service>, endpoints: map<string, Endpoints>)
      returns (subClusters: ClusterBackend)
      ensures subClusters == Clusters.NewClusterBackend(namespace, backend, balance, services, endpoints)
    {
      hide NewSubCluster; hide Clusters.GetTargetPort;
      subClusters := map[];
      if backend.name !in balance {
        var serviceName := NamespacedName(namespace, backend.name);
        var port := GetTargetPort(backend.port, Get(services, serviceName));
        var instances := NewSubClusterBackend(Get(endpoints, serviceName), port);
        subClusters := subClusters[serviceName := instances];
        return;
      }
      var weights := balance[backend.name];
      var names := weights.Keys;
      ghost var whole := Clusters.NewClusterBackend(namespace, backend, balance, services, endpoints);
      while names != {}
        invariant names <= weights.Keys
        invariant subClusters == map s | s in (set n | n in weights.Keys - names :: NamespacedName(namespace, n)) ::
                                   NewSubCluster(Get(endpoints, s), Clusters.GetTargetPort(backend.port, Get(services, s)))
      {
        var name :| name in names;
        var serviceName := NamespacedName(namespace, name);
        var port := GetTargetPort(backend.port, Get(services, serviceName));
        var instances := NewSubClusterBackend(Get(endpoints, serviceName), port);
        subClusters := subClusters[serviceName := instances];
        names := names - {name};
      }
    }

    static method NewSubClusterBackend(ep: Option<Endpoints>, port: TargetPort) returns (r: SubCluster)
      ensures r == NewSubCluster(ep, port)
    {
      hide AllInstances; hide SubsetInstances; hide Instances1;
      if ep.None? {
        return NilSlice;
      }
      var subsets := ep.value.subsets;
      var instanceList: seq<Backend> := [];
      if port.intVal == 0 && |port.strVal| == 0 {
        if |subsets| > 0 && |subsets[0].ports| > 0 && |subsets[0].addresses| > 0 {
          instanceList := instanceList + [Backend(subsets[0].addresses[0], subsets[0].ports[0].port, DEFAULT_WEIGHT)];
        }
        return Instances(instanceList);
      }
      NoInstances(port);
      for i := 0 to |subsets|
        invariant instanceList == AllInstances(subsets[..i], port)
      {
        var subset := subsets[i];
        ghost var before := instanceList;
        NoSubsetInstances(subset, port);
        for j := 0 to |subset.ports|
          invariant instanceList == before + SubsetInstances(subset, subset.ports[..j], port)
        {
          var endpointPort := subset.ports[j];
          ghost var soFar := instanceList;
          SubsetInstancesStep(subset, j, port);
          if port.intVal == endpointPort.port || port.strVal == endpointPort.name {
            NoAddress(endpointPort.port);
            for k := 0 to |subset.addresses|
              invariant instanceList == soFar + Instances1(subset.addresses[..k], endpointPort.port)
            {
              Instances1Step(subset.addresses, k, endpointPort.port);
              instanceList := instanceList + [Backend(subset.addresses[k], endpointPort.port, DEFAULT_WEIGHT)];
            }
            assert subset.addresses[..|subset.addresses|] == subset.addresses;
          }
        }
        assert subset.ports[..|subset.ports|] == subset.ports;
        AllInstancesStep(subsets, i, port);
      }
      assert subsets[..|subsets|] == subsets;
      return Instances(instanceList);
    }

    static method GetTargetPort(backendPort: BackendPort, svc: Option<Service>) returns (r: TargetPort)
      ensures r == Clusters.GetTargetPort(backendPort, svc)
    {
      if svc.None? {
        return NO_PORT;
      }
      var ports := svc.value.ports;
      for i := 0 to |ports|
        invariant TargetPortOf(backendPort, ports) == TargetPortOf(backendPort, ports[i..])
      {
        var p := ports[i];
        assert ports[i..][1..] == ports[i + 1..];
        if (backendPort.number > 0 && backendPort.number != p.port) || (|backendPort.name| > 0 && backendPort.name != p.name) {
          continue;
        }
        if |p.name| > 0 {
          return TargetPort(0, p.name);
        }
        if p.targetPort.intVal > 0 {
          return TargetPort(p.targetPort.intVal, "");
        }
        return NO_PORT;
      }
      return NO_PORT;
    }

    static method NewGslbClusterConf(namespace: string, service: string, balance: Balance) returns (gslb: GslbCluster)
      ensures gslb == NewGslbCluster(namespace, service, balance)
    {
      gslb := map[];
      if service !in balance {
        return gslb[NamespacedName(namespace, service) := DEFAULT_WEIGHT];
      }
      var weights := balance[service];
      var names := weights.Keys;
      while names != {}
        invariant names <= weights.Keys
        invariant gslb == map s | s in (set n | n in weights.Keys - names :: NamespacedName(namespace, n)) ::
                            WeightOf(namespace, service, balance, s)
      {
        var name :| name in names;
        LocalNameInverts(namespace, name);
        gslb := gslb[NamespacedName(namespace, name) := weights[name]];
        names := names - {name};
      }
    }
  }

  lemma CleanIsActive(s: ClusterState, a: ClusterActive)
    requires |ClusterDocs(s, a)| == 2 && forall i :: 0 <= i < 2 ==> !Dirty(ClusterDocs(s, a)[i])
    ensures a == ClusterActivated(s)
  {
    assert !Dirty(ClusterDocs(s, a)[0]) && !Dirty(ClusterDocs(s, a)[1]);
  }

  // ---------------------------------------------------------------- the loops' steps

  lemma NoRules(s: ClusterState, defaultBackend: string, ingress: Ingress, balance: Balance,
                services: map<string, Service>, endpoints: map<string, Endpoints>, checkOk: bool)
    requires ingress.rules == []
    ensures Updates(s, defaultBackend, ingress, balance, services, endpoints, checkOk, s, true)
  {
  }

  lemma NoPathsYet(s: ClusterState, ingress: Ingress, balance: Balance, services: map<string, Service>, endpoints: map<string, Endpoints>)
    ensures AppliesPaths(s, ingress, HostPaths(ingress.rules[..0]), balance, services, endpoints, s)
  {
  }

  /** The paths of the first i rules and the first j of the next. */
  ghost function PathsUpTo(rules: seq<IngressRule>, i: nat, j: nat): seq<(string, HttpPath)>
    requires i < |rules| && j <= |rules[i].paths|
  {
    HostPaths(rules[..i]) + PathsOf(rules[i])[..j]
  }

  lemma RuleBegins(rules: seq<IngressRule>, i: nat)
    requires i < |rules|
    ensures PathsUpTo(rules, i, 0) == HostPaths(rules[..i])
  {
  }

  lemma RuleEnds(rules: seq<IngressRule>, i: nat)
    requires i < |rules|
    ensures PathsUpTo(rules, i, |rules[i].paths|) == HostPaths(rules[..i + 1])
  {
    hide HostPaths;
    HostPathsStep(rules, i);
    assert PathsOf(rules[i])[..|rules[i].paths|] == PathsOf(rules[i]);
  }

  lemma PathsUpToStep(rules: seq<IngressRule>, i: nat, j: nat)
    requires i < |rules| && j < |rules[i].paths|
    ensures PathsUpTo(rules, i, j + 1) == PathsUpTo(rules, i, j) + [(rules[i].host, rules[i].paths[j])]
  {
  }

  lemma AppliesOneMore(s: ClusterState, ingress: Ingress, front: seq<(string, HttpPath)>, next: (string, HttpPath), balance: Balance,
                       services: map<string, Service>, endpoints: map<string, Endpoints>, before: ClusterState, after: ClusterState)
    requires AppliesPaths(s, ingress, front, balance, services, endpoints, before)
    requires AppliesPath(before, ingress, next.1.backend, balance, services, endpoints, after)
    ensures AppliesPaths(s, ingress, front + [next], balance, services, endpoints, after)
  {
    hide ApplyPath;
    assert (front + [next])[..|front + [next]| - 1] == front;
  }

  lemma OnePathMore(s: ClusterState, ingress: Ingress, i: nat, j: nat, balance: Balance,
                    services: map<string, Service>, endpoints: map<string, Endpoints>, before: ClusterState, after: ClusterState)
    requires i < |ingress.rules| && j < |ingress.rules[i].paths|
    requires AppliesPaths(s, ingress, PathsUpTo(ingress.rules, i, j), balance, services, endpoints, before)
    requires AppliesPath(before, ingress, ingress.rules[i].paths[j].backend, balance, services, endpoints, after)
    ensures AppliesPaths(s, ingress, PathsUpTo(ingress.rules, i, j + 1), balance, services, endpoints, after)
  {
    hide *;
    var next := (ingress.rules[i].host, ingress.rules[i].paths[j]);
    PathsUpToStep(ingress.rules, i, j);
    AppliesOneMore(s, ingress, PathsUpTo(ingress.rules, i, j), next, balance, services, endpoints, before, after);
  }

  lemma CheckRejects(s: ClusterState, applied: ClusterState, s': ClusterState, after: ClusterState, defaultBackend: string, ingress: Ingress,
                 balance: Balance, services: map<string, Service>, endpoints: map<string, Endpoints>)
    requires ingress.rules != [] && AppliesPaths(s, ingress, HostPaths(ingress.rules), balance, services, endpoints, applied)
    requires if defaultBackend != "" then AddsDefault(applied, defaultBackend, Get(endpoints, defaultBackend), s') else s' == applied
    requires Deletes(s', defaultBackend, ingress.namespace, ingress.name, after)
    ensures Updates(s, defaultBackend, ingress, balance, services, endpoints, false, after, false)
  {
  }

  lemma CheckAccepts(s: ClusterState, applied: ClusterState, s': ClusterState, after: ClusterState, defaultBackend: string, ingress: Ingress,
                 balance: Balance, services: map<string, Service>, endpoints: map<string, Endpoints>)
    requires ingress.rules != [] && AppliesPaths(s, ingress, HostPaths(ingress.rules), balance, services, endpoints, applied)
    requires if defaultBackend != "" then AddsDefault(applied, defaultBackend, Get(endpoints, defaultBackend), s') else s' == applied
    requires after == SetVersion(s')
    ensures Updates(s, defaultBackend, ingress, balance, services, endpoints, true, after, true)
  {
  }

  lemma DropNone(s: ClusterState)
    ensures DropClusters(s, {}) == s
  {
    forall svc, c
      ensures Has(WithoutListed(s.service2Cluster, s.table, {}), svc, c) <==> Has(s.service2Cluster, svc, c)
    {
      WithoutListedHas(s.service2Cluster, s.table, {}, svc, c);
    }
    SameHas(WithoutListed(s.service2Cluster, s.table, {}), s.service2Cluster);
    assert s.table - {} == s.table && s.gslb - {} == s.gslb;
  }

  lemma RemoveAllHas(m: Multimap<string, string>, k: string, v: string)
    ensures forall k', v' :: Has(Remove(m, k, v), k', v') <==> Has(m, k', v') && !(k' == k && v' == v)
  {
    forall k', v'
      ensures Has(Remove(m, k, v), k', v') <==> Has(m, k', v') && !(k' == k && v' == v)
    {
      RemoveHas(m, k, v, k', v');
    }
  }

  lemma DropOne(s: ClusterState, cluster: string, index: Multimap<string, string>)
    requires var services := if cluster in s.table then s.table[cluster].Keys else {};
             forall svc, c :: Has(index, svc, c) <==> Has(s.service2Cluster, svc, c) && !(svc in services && c == cluster)
    ensures DropClusters(s, {cluster}) == s.(service2Cluster := index, table := s.table - {cluster}, gslb := s.gslb - {cluster})
  {
    forall svc, c
      ensures Has(WithoutListed(s.service2Cluster, s.table, {cluster}), svc, c) <==> Has(index, svc, c)
    {
      WithoutListedHas(s.service2Cluster, s.table, {cluster}, svc, c);
    }
    SameHas(WithoutListed(s.service2Cluster, s.table, {cluster}), index);
  }

  lemma DropOneMore(s: ClusterState, dropped: set<string>, cluster: string)
    requires cluster !in dropped
    ensures DropClusters(s, dropped + {cluster}) == DropClusters(DropClusters(s, dropped), {cluster})
  {
    var index := WithoutListed(s.service2Cluster, s.table, dropped);
    var left := WithoutListed(s.service2Cluster, s.table, dropped + {cluster});
    var right := WithoutListed(index, s.table - dropped, {cluster});
    forall svc, c
      ensures Has(left, svc, c) <==> Has(right, svc, c)
    {
      WithoutListedHas(s.service2Cluster, s.table, dropped + {cluster}, svc, c);
      WithoutListedHas(s.service2Cluster, s.table, dropped, svc, c);
      WithoutListedHas(index, s.table - dropped, {cluster}, svc, c);
    }
    SameHas(left, right);
    assert s.table - (dropped + {cluster}) == s.table - dropped - {cluster};
    assert s.gslb - (dropped + {cluster}) == s.gslb - dropped - {cluster};
  }

  function PruneTable(table: map<string, ClusterBackend>, cs: set<string>, svc: string): map<string, ClusterBackend> {
    map c | c in table :: if c in cs then table[c] - {svc} else table[c]
  }

  function PruneGslb(gslb: map<string, GslbCluster>, cs: set<string>, svc: string): map<string, GslbCluster> {
    map c | c in gslb && !(c in cs && gslb[c] - {svc} == map[]) :: if c in cs then gslb[c] - {svc} else gslb[c]
  }

  /** Go's nested delete: nothing happens when the outer key is missing. */
  function DropFromTable(t: map<string, ClusterBackend>, c: string, svc: string): map<string, ClusterBackend> {
    if c in t then t[c := t[c] - {svc}] else t
  }

  function DropFromGslb(g: map<string, GslbCluster>, c: string, svc: string): map<string, GslbCluster> {
    if c !in g then g else if g[c] - {svc} == map[] then g - {c} else g[c := g[c] - {svc}]
  }

  lemma PruneNothing(table: map<string, ClusterBackend>, gslb: map<string, GslbCluster>, svc: string)
    ensures PruneTable(table, {}, svc) == table && PruneGslb(gslb, {}, svc) == gslb
  {
  }

  lemma PrunedIsDeleted(s: ClusterState, namespace: string, name: string)
    ensures var svc := NamespacedName(namespace, name); var cs := Values(s.service2Cluster, svc);
            Clusters.DeleteService(s, namespace, name) == SetVersion(s.(table := PruneTable(s.table, cs, svc), gslb := PruneGslb(s.gslb, cs, svc)))
  {
  }

  lemma PruneStep(table: map<string, ClusterBackend>, gslb: map<string, GslbCluster>, cs: set<string>, c: string, svc: string)
    requires c !in cs
    ensures PruneTable(table, cs + {c}, svc) == DropFromTable(PruneTable(table, cs, svc), c, svc)
    ensures PruneGslb(gslb, cs + {c}, svc) == DropFromGslb(PruneGslb(gslb, cs, svc), c, svc)
  {
  }

  /** What one turn of UpdateService's loop makes of the state. */
  function Rewritten(s: ClusterState, name: string, service: Service, ep: Option<Endpoints>, port: TargetPort): ClusterState
    requires name in s.table
  {
    s.(table := s.table[name := s.table[name][NamespacedName(service.namespace, service.name) := NewSubCluster(ep, port)]],
       gslb := s.gslb[name := NewGslbCluster(service.namespace, service.name, map[])])
  }

  lemma NothingListed()
    ensures Lists([], {})
  {
  }

  lemma ListsMore(order: seq<string>, elements: set<string>, x: string)
    requires Lists(order, elements) && x !in elements
    ensures Lists(order + [x], elements + {x})
  {
  }

  /** Any way to go on after the loop left early: the clusters not visited, in some order. */
  ghost function Completed(s: ClusterState, order: seq<string>, clusters: set<string>, rest: set<string>): (all: seq<string>)
    requires rest <= clusters && Lists(order, clusters - rest)
    ensures order <= all && Lists(all, clusters)
    decreases rest
  {
    if rest == {} then
      assert clusters - rest == clusters;
      order
    else
      var x :| x in rest;
      assert clusters - (rest - {x}) == clusters - rest + {x};
      Completed(s, order + [x], clusters, rest - {x})
  }

  /** The loop has come from s to now along done: whatever order is left decides the same in both. */
  ghost predicate Reached(s: ClusterState, now: ClusterState, defaultBackend: string, service: Service, ep: Option<Endpoints>, done: seq<string>) {
    forall tail :: UpdateClusters(s, defaultBackend, service, ep, done + tail) == UpdateClusters(now, defaultBackend, service, ep, tail)
  }

  lemma ReachedAtStart(s: ClusterState, defaultBackend: string, service: Service, ep: Option<Endpoints>)
    ensures Reached(s, s, defaultBackend, service, ep, [])
  {
    assert forall tail: seq<string> :: [] + tail == tail;
  }

  lemma ReachedAtEnd(s: ClusterState, now: ClusterState, defaultBackend: string, service: Service, ep: Option<Endpoints>, done: seq<string>)
    requires Reached(s, now, defaultBackend, service, ep, done)
    ensures UpdateClusters(s, defaultBackend, service, ep, done) == (SetVersion(now), Done)
  {
    assert done + [] == done;
  }

  lemma LoopStops(s: ClusterState, before: ClusterState, defaultBackend: string, service: Service, ep: Option<Endpoints>,
                  done: seq<string>, name: string, all: seq<string>)
    requires done + [name] <= all
    requires Reached(s, before, defaultBackend, service, ep, done)
    requires (TargetPortOf(ParsePort(name), service.ports) == NO_PORT && NamespacedName(service.namespace, service.name) != defaultBackend)
             || name !in before.table
    ensures UpdateClusters(s, defaultBackend, service, ep, all) ==
            if TargetPortOf(ParsePort(name), service.ports) == NO_PORT && NamespacedName(service.namespace, service.name) != defaultBackend
            then (Clusters.DeleteService(before, service.namespace, service.name), Failed)
            else (before, Crashed)
  {
    var tail := all[|done|..];
    assert all == done + tail && tail[0] == name;
  }

  lemma LoopContinues(s: ClusterState, before: ClusterState, after: ClusterState, defaultBackend: string, service: Service,
                      ep: Option<Endpoints>, done: seq<string>, name: string)
    requires Reached(s, before, defaultBackend, service, ep, done)
    requires name in before.table
    requires !(TargetPortOf(ParsePort(name), service.ports) == NO_PORT && NamespacedName(service.namespace, service.name) != defaultBackend)
    requires after == Rewritten(before, name, service, ep, TargetPortOf(ParsePort(name), service.ports))
    ensures Reached(s, after, defaultBackend, service, ep, done + [name])
  {
    forall tail
      ensures UpdateClusters(s, defaultBackend, service, ep, done + [name] + tail) == UpdateClusters(after, defaultBackend, service, ep, tail)
    {
      assert done + [name] + tail == done + ([name] + tail);
      assert ([name] + tail)[1..] == tail;
    }
  }

  lemma NoInstances(port: TargetPort)
    ensures AllInstances([], port) == []
  {
  }

  lemma NoSubsetInstances(subset: Subset, port: TargetPort)
    ensures SubsetInstances(subset, [], port) == []
  {
  }

  lemma NoAddress(port: int)
    ensures Instances1([], port) == []
  {
  }

  lemma AllInstancesStep(subsets: seq<Subset>, i: nat, port: TargetPort)
    requires i < |subsets|
    ensures AllInstances(subsets[..i + 1], port) == AllInstances(subsets[..i], port) + SubsetInstances(subsets[i], subsets[i].ports, port)
  {
    assert subsets[..i + 1][..i] == subsets[..i];
  }

  lemma SubsetInstancesStep(subset: Subset, j: nat, port: TargetPort)
    requires j < |subset.ports|
    ensures var p := subset.ports[j];
            SubsetInstances(subset, subset.ports[..j + 1], port) == SubsetInstances(subset, subset.ports[..j], port) +
            if port.intVal == p.port || port.strVal == p.name then Instances1(subset.addresses, p.port) else []
  {
    assert subset.ports[..j + 1][..j] == subset.ports[..j];
  }

  lemma Instances1Step(addresses: seq<string>, k: nat, port: int)
    requires k < |addresses|
    ensures Instances1(addresses[..k + 1], port) == Instances1(addresses[..k], port) + [Backend(addresses[k], port, DEFAULT_WEIGHT)]
  {
  }

}
