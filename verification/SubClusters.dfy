/** What a cluster consists of: which endpoints become its instances (getTargetPort and newSubClusterBackend), which services
    they are taken from, and with which weights. */
module SubClusters {
  import opened Multimaps
  import opened Kube
  import opened Names
  import opened Annotations
  import opened Clusters
  import opened ClusterInvariants
  import opened ServiceEvents
  import opened BuilderEffects

  // ---------------------------------------------------------------- the target port

  /** The service port is one the backend asks for: a number and a name that are given must be its own. */
  predicate Fits(wanted: BackendPort, p: ServicePort) {
    (wanted.number <= 0 || p.port == wanted.number) && (wanted.name == "" || p.name == wanted.name)
  }

  ghost predicate FirstFit(wanted: BackendPort, ports: seq<ServicePort>, i: int) {
    0 <= i < |ports| && Fits(wanted, ports[i]) && forall j :: 0 <= j < i ==> !Fits(wanted, ports[j])
  }

  /** The first fitting service port decides: by its name, else by a positive numeric target port, else not at all. */
  lemma {:induction false} TargetPortExactly(wanted: BackendPort, ports: seq<ServicePort>)
    ensures (forall i :: 0 <= i < |ports| ==> !Fits(wanted, ports[i])) ==> TargetPortOf(wanted, ports) == TargetPort(0, "")
    ensures forall i :: FirstFit(wanted, ports, i) ==>
              var p := ports[i];
              && (p.name != "" ==> TargetPortOf(wanted, ports) == TargetPort(0, p.name))
              && (p.name == "" && p.targetPort.intVal > 0 ==> TargetPortOf(wanted, ports) == TargetPort(p.targetPort.intVal, ""))
              && (p.name == "" && p.targetPort.intVal <= 0 ==> TargetPortOf(wanted, ports) == TargetPort(0, ""))
  {
    if ports != [] {
      assert PortFits(wanted, ports[0]) <==> Fits(wanted, ports[0]);
      hide PortFits; hide Fits;
      if !Fits(wanted, ports[0]) {
        TargetPortExactly(wanted, ports[1..]);
        assert forall i :: 0 < i < |ports| ==> ports[i] == ports[1..][i - 1];
        forall i | FirstFit(wanted, ports, i)
          ensures FirstFit(wanted, ports[1..], i - 1)
        {
          assert forall j :: 0 <= j < i - 1 ==> ports[1..][j] == ports[j + 1];
        }
      }
    }
  }

  // ---------------------------------------------------------------- the instances of a port

  /** Port j of subset i is the target port, and the subset has an address k. */
  predicate Listens(subsets: seq<Subset>, port: TargetPort, i: int, j: int, k: int) {
    && 0 <= i < |subsets| && 0 <= j < |subsets[i].ports| && 0 <= k < |subsets[i].addresses|
    && (subsets[i].ports[j].port == port.intVal || subsets[i].ports[j].name == port.strVal)
  }

  /** A place in the nested loops: subset, port, address. */
  datatype Place = Place(i: int, j: int, k: int)

  predicate Earlier(a: Place, b: Place) {
    a.i < b.i || (a.i == b.i && (a.j < b.j || (a.j == b.j && a.k < b.k)))
  }

  /** list has one instance of weight 10 for each of the places, which come in the order of the loops. */
  ghost predicate ListsPlaces(subsets: seq<Subset>, port: TargetPort, places: seq<Place>, list: seq<Backend>) {
    && |places| == |list|
    && (forall m, n :: 0 <= m < n < |places| ==> Earlier(places[m], places[n]))
    && (forall n :: 0 <= n < |places| ==>
          var (i, j, k) := (places[n].i, places[n].j, places[n].k);
          Listens(subsets, port, i, j, k) && list[n] == Backend(subsets[i].addresses[k], subsets[i].ports[j].port, 10))
  }

  /** The places of one port. */
  lemma PortPlaces(subsets: seq<Subset>, port: TargetPort, i: nat, j: nat) returns (places: seq<Place>)
    requires i < |subsets| && j < |subsets[i].ports|
    ensures var p := subsets[i].ports[j];
            ListsPlaces(subsets, port, places, if port.intVal == p.port || port.strVal == p.name then Instances1(subsets[i].addresses, p.port) else [])
    ensures forall p: Place :: p in places <==> p.i == i && p.j == j && Listens(subsets, port, p.i, p.j, p.k)
  {
    var p, addresses := subsets[i].ports[j], subsets[i].addresses;
    if port.intVal == p.port || port.strVal == p.name {
      places := seq(|addresses|, k requires 0 <= k < |addresses| => Place(i, j, k));
      forall q: Place | q.i == i && q.j == j && Listens(subsets, port, q.i, q.j, q.k)
        ensures q in places
      {
        assert places[q.k] == q;
      }
    } else {
      places := [];
    }
  }

  /** The places of the first n ports of subset i. */
  lemma {:induction false} SubsetPlaces(subsets: seq<Subset>, port: TargetPort, i: nat, n: nat) returns (places: seq<Place>)
    requires i < |subsets| && n <= |subsets[i].ports|
    ensures ListsPlaces(subsets, port, places, SubsetInstances(subsets[i], subsets[i].ports[..n], port))
    ensures forall p: Place :: p in places <==> p.i == i && p.j < n && Listens(subsets, port, p.i, p.j, p.k)
  {
    hide Instances1; hide ListsPlaces;
    NoPlaces(subsets, port);
    places := [];
    if n > 0 {
      var ports := subsets[i].ports;
      var before := SubsetPlaces(subsets, port, i, n - 1);
      var more := PortPlaces(subsets, port, i, n - 1);
      assert ports[..n][..n - 1] == ports[..n - 1];
      places := before + more;
      MorePlaces(subsets, port, before, more, SubsetInstances(subsets[i], ports[..n - 1], port),
                 if port.intVal == ports[n - 1].port || port.strVal == ports[n - 1].name then Instances1(subsets[i].addresses, ports[n - 1].port) else []);
    }
  }

  /** The places of the first n subsets. */
  lemma {:induction false} AllPlaces(subsets: seq<Subset>, port: TargetPort, n: nat) returns (places: seq<Place>)
    requires n <= |subsets|
    ensures ListsPlaces(subsets, port, places, AllInstances(subsets[..n], port))
    ensures forall p: Place :: p in places <==> p.i < n && Listens(subsets, port, p.i, p.j, p.k)
  {
    hide SubsetInstances; hide ListsPlaces;
    NoPlaces(subsets, port);
    places := [];
    if n > 0 {
      var before := AllPlaces(subsets, port, n - 1);
      var subset := subsets[n - 1];
      var more := SubsetPlaces(subsets, port, n - 1, |subset.ports|);
      assert subset.ports[..|subset.ports|] == subset.ports;
      assert subsets[..n][..n - 1] == subsets[..n - 1];
      places := before + more;
      MorePlaces(subsets, port, before, more, AllInstances(subsets[..n - 1], port), SubsetInstances(subset, subset.ports, port));
    }
  }

  lemma NoPlaces(subsets: seq<Subset>, port: TargetPort)
    ensures ListsPlaces(subsets, port, [], [])
  {
  }

  lemma MorePlaces(subsets: seq<Subset>, port: TargetPort, a: seq<Place>, b: seq<Place>, la: seq<Backend>, lb: seq<Backend>)
    requires ListsPlaces(subsets, port, a, la) && ListsPlaces(subsets, port, b, lb)
    requires forall p, q :: p in a && q in b ==> Earlier(p, q)
    ensures ListsPlaces(subsets, port, a + b, la + lb)
  {
  }

  /** The instances of a target port: one of weight 10 for each address of a subset with a port of that number or name, at the
      endpoint's port, in the order of subsets, ports and addresses, and no others. */
  lemma InstancesExactly(ep: Endpoints, port: TargetPort) returns (places: seq<Place>)
    requires port != TargetPort(0, "")
    ensures NewSubCluster(Some(ep), port).Instances?
    ensures ListsPlaces(ep.subsets, port, places, NewSubCluster(Some(ep), port).list)
    ensures forall i, j, k :: Place(i, j, k) in places <==> Listens(ep.subsets, port, i, j, k)
  {
    hide AllInstances; hide ListsPlaces; hide Listens;
    places := AllPlaces(ep.subsets, port, |ep.subsets|);
    assert ep.subsets[..|ep.subsets|] == ep.subsets;
    forall i, j, k
      ensures Place(i, j, k) in places <==> Listens(ep.subsets, port, i, j, k)
    {
      ListensInRange(ep.subsets, port, i, j, k);
    }
  }

  lemma ListensInRange(subsets: seq<Subset>, port: TargetPort, i: int, j: int, k: int)
    ensures Listens(subsets, port, i, j, k) ==> i < |subsets|
  {
  }

  /** The same as membership. */
  lemma InstanceExactly(ep: Endpoints, port: TargetPort, b: Backend)
    requires port != TargetPort(0, "")
    ensures NewSubCluster(Some(ep), port).Instances?
    ensures b in NewSubCluster(Some(ep), port).list <==>
            b.weight == 10 &&
            exists i, j, k :: Listens(ep.subsets, port, i, j, k) && b.ip == ep.subsets[i].addresses[k] && b.port == ep.subsets[i].ports[j].port
  {
    hide NewSubCluster;
    var places := InstancesExactly(ep, port);
    var list := NewSubCluster(Some(ep), port).list;
    if i, j, k :| Listens(ep.subsets, port, i, j, k) && b.ip == ep.subsets[i].addresses[k] && b.port == ep.subsets[i].ports[j].port && b.weight == 10 {
      assert Place(i, j, k) in places;
      var n :| 0 <= n < |places| && places[n] == Place(i, j, k);
      assert list[n] == b;
    }
    if n :| 0 <= n < |list| && list[n] == b {
      assert Listens(ep.subsets, port, places[n].i, places[n].j, places[n].k);
    }
  }

  predicate HasFirst(subsets: seq<Subset>) {
    subsets != [] && subsets[0].ports != [] && subsets[0].addresses != []
  }

  /** Without endpoints there is the nil slice. Without a target port it is the first address at the first port of the first
      subset, where there are these, and else nothing. */
  lemma FirstInstance(ep: Endpoints, port: TargetPort)
    ensures NewSubCluster(None, port) == NilSlice
    ensures var anyPort := TargetPort(0, "");
            if HasFirst(ep.subsets)
            then NewSubCluster(Some(ep), anyPort) == Instances([Backend(ep.subsets[0].addresses[0], ep.subsets[0].ports[0].port, 10)])
            else NewSubCluster(Some(ep), anyPort) == Instances([])
  {
  }

  // ---------------------------------------------------------------- the services of a cluster

  /** The accepted balance annotation splits the service over others. */
  ghost predicate SplitsService(a: BalanceAnnotation, service: string) {
    a.Decoded? && AcceptedBalance(a.balance) && service in a.balance
  }

  /** The instances that an ingress's port has at one service: at its target port there, or at no particular port when the service
      is unknown or has none. */
  function InstancesAt(port: BackendPort, service: string, services: map<string, Service>, endpoints: map<string, Endpoints>): SubCluster {
    NewSubCluster(if service in endpoints then Some(endpoints[service]) else None,
                  if service in services then TargetPortOf(port, services[service].ports) else TargetPort(0, ""))
  }

  /** A cluster for the backend: its own service with weight 10, or with an accepted balance annotation the services and weights
      it gives; of each of them, the instances at the backend's port. */
  ghost predicate BuiltAs(table: ClusterBackend, gslb: GslbCluster, ns: string, b: ServiceBackend, a: BalanceAnnotation,
                          services: map<string, Service>, endpoints: map<string, Endpoints>) {
    && (if SplitsService(a, b.name) then
          && (forall s :: s in gslb <==> exists n :: n in a.balance[b.name] && s == ns + "/" + n)
          && (forall n :: n in a.balance[b.name] ==> ns + "/" + n in gslb && gslb[ns + "/" + n] == a.balance[b.name][n])
        else gslb == map[ns + "/" + b.name := 10])
    && table.Keys == gslb.Keys
    && forall s :: s in table ==> table[s] == InstancesAt(b.port, s, services, endpoints)
  }

  lemma BackendConsists(ns: string, b: ServiceBackend, a: BalanceAnnotation, services: map<string, Service>, endpoints: map<string, Endpoints>)
    ensures BuiltAs(NewClusterBackend(ns, b, EffectiveBalance(a), services, endpoints), NewGslbCluster(ns, b.name, EffectiveBalance(a)), ns, b, a,
                    services, endpoints)
  {
    hide NewSubCluster; hide TargetPortOf; hide AcceptedBalance; hide LocalName;
    var table, gslb := NewClusterBackend(ns, b, EffectiveBalance(a), services, endpoints), NewGslbCluster(ns, b.name, EffectiveBalance(a));
    assert table.Keys == gslb.Keys == ServicesOf(ns, b.name, EffectiveBalance(a));
    if SplitsService(a, b.name) {
      forall n | n in a.balance[b.name]
        ensures NamespacedName(ns, n) in gslb && gslb[NamespacedName(ns, n)] == a.balance[b.name][n]
      {
        LocalNameInverts(ns, n);
      }
    }
  }

  /** After an accepted update every path of the ingress has its cluster in both tables, built from its own backend, whatever stood
      there before and whichever other paths name the same cluster. */
  lemma UpdateBuildsClusters(s: ClusterState, defaultBackend: string, ingress: Ingress, services: map<string, Service>,
                             endpoints: map<string, Endpoints>, i: nat)
    requires NamesOk(ingress) && ingress.rules != [] && i < |HostPaths(ingress.rules)|
    ensures var s' := UpdateIngress(s, defaultBackend, ingress, EffectiveBalance(ingress.weights), services, endpoints, true).0;
            var b := HostPaths(ingress.rules)[i].1.backend; var c := ClusterOf(ingress, b);
            && c in s'.table && c in s'.gslb && Has(s'.ingress2Cluster, NamespacedName(ingress.namespace, ingress.name), c)
            && BuiltAs(s'.table[c], s'.gslb[c], ingress.namespace, b, ingress.weights, services, endpoints)
            && forall svc :: svc in s'.table[c] ==> Has(s'.service2Cluster, svc, c)
  {
    hide *;
    var b := HostPaths(ingress.rules)[i].1.backend;
    var balance := EffectiveBalance(ingress.weights);
    EffectiveBalanceOk(ingress.weights);
    UpdateIngressAt(s, defaultBackend, ingress, balance, services, endpoints, b);
    BackendConsists(ingress.namespace, b, ingress.weights, services, endpoints);
    UpdateOwns(s, defaultBackend, ingress, balance, services, endpoints, i);
    KeysOfBackend(ingress.namespace, b, balance, services, endpoints);
  }

  lemma KeysOfBackend(ns: string, b: ServiceBackend, balance: Balance, services: map<string, Service>, endpoints: map<string, Endpoints>)
    ensures NewClusterBackend(ns, b, balance, services, endpoints).Keys == ServicesOf(ns, b.name, balance)
  {
    hide ServicesOf; hide NewSubCluster; hide Clusters.GetTargetPort;
  }

  lemma UpdateOwns(s: ClusterState, defaultBackend: string, ingress: Ingress, balance: Balance, services: map<string, Service>,
                   endpoints: map<string, Endpoints>, i: nat)
    requires ingress.rules != [] && i < |HostPaths(ingress.rules)|
    ensures Has(UpdateIngress(s, defaultBackend, ingress, balance, services, endpoints, true).0.ingress2Cluster,
                NamespacedName(ingress.namespace, ingress.name), ClusterOf(ingress, HostPaths(ingress.rules)[i].1.backend))
  {
    hide ClusterName; hide NamespacedName; hide HostPaths; hide OwnCluster; hide Has;
    var b := HostPaths(ingress.rules)[i].1.backend;
    OwnClusterAt(ingress, i);
    UpdatedOwners(s, defaultBackend, ingress, balance, services, endpoints, true, NamespacedName(ingress.namespace, ingress.name), ClusterOf(ingress, b));
  }

  lemma OwnClusterAt(ingress: Ingress, i: nat)
    requires i < |HostPaths(ingress.rules)|
    ensures OwnCluster(ingress, HostPaths(ingress.rules), ClusterOf(ingress, HostPaths(ingress.rules)[i].1.backend))
  {
    hide HostPaths; hide ClusterName;
  }

  // ---------------------------------------------------------------- the default cluster

  /** After an accepted update the default cluster is the one there was, or one of the default backend's first instance when it has
      one; with a deletion it goes exactly with the last ingress that owns a cluster. */
  lemma DefaultClusterExactly(s: ClusterState, defaultBackend: string, ingress: Ingress, balance: Balance, services: map<string, Service>,
                              endpoints: map<string, Endpoints>)
    requires NamesOk(ingress) && ingress.rules != [] && defaultBackend != ""
    ensures var s' := UpdateIngress(s, defaultBackend, ingress, balance, services, endpoints, true).0; var d := DefaultClusterName(defaultBackend);
            if d in s.table then Get(s'.table, d) == Get(s.table, d) && Get(s'.gslb, d) == Get(s.gslb, d)
            else if defaultBackend in endpoints && HasFirst(endpoints[defaultBackend].subsets) then
              var first := endpoints[defaultBackend].subsets[0];
              && Get(s'.table, d) == Some(map[defaultBackend := Instances([Backend(first.addresses[0], first.ports[0].port, 10)])])
              && Get(s'.gslb, d) == Some(map[defaultBackend := 10])
            else d !in s'.table && Get(s'.gslb, d) == Get(s.gslb, d)
  {
    hide ApplyPaths; hide HostPaths; hide DefaultClusterName; hide NewSubCluster; hide NamesOk; hide Multimaps.Put; hide BackendsOk;
    var d := DefaultClusterName(defaultBackend);
    PathsOk(ingress);
    ApplyPathsNotDefault(s, ingress, HostPaths(ingress.rules), balance, services, endpoints, defaultBackend);
    if defaultBackend in endpoints {
      FirstInstance(endpoints[defaultBackend], TargetPort(0, ""));
    }
  }

  lemma {:induction false} ApplyPathsNotDefault(s: ClusterState, ingress: Ingress, paths: seq<(string, HttpPath)>, balance: Balance,
                                                services: map<string, Service>, endpoints: map<string, Endpoints>, defaultBackend: string)
    requires NamesOk(ingress)
    ensures var s' := ApplyPaths(s, ingress, paths, balance, services, endpoints); var d := DefaultClusterName(defaultBackend);
            Get(s'.table, d) == Get(s.table, d) && Get(s'.gslb, d) == Get(s.gslb, d)
  {
    hide NamesOk; hide DefaultClusterName; hide ClusterName; hide NamespacedName; hide NewClusterBackend; hide NewGslbCluster; hide Multimaps.Put; hide Multimaps.PutAll;
    hide OwnerOf;
    if paths != [] {
      ApplyPathsNotDefault(s, ingress, paths[..|paths| - 1], balance, services, endpoints, defaultBackend);
      NamesParts(ingress);
      OwnerOfClusterName(ingress.namespace, ingress.name, paths[|paths| - 1].1.backend, defaultBackend);
    }
  }

  lemma DefaultGoesWithLast(s: ClusterState, defaultBackend: string, namespace: string, name: string)
    requires Inv(s, defaultBackend) && defaultBackend != "" && NamespacedName(namespace, name) in s.ingress2Cluster
    ensures var s' := DeleteIngress(s, defaultBackend, namespace, name); var d := DefaultClusterName(defaultBackend);
            if exists j :: j in s.ingress2Cluster && j != NamespacedName(namespace, name)
            then Get(s'.table, d) == Get(s.table, d) && Get(s'.gslb, d) == Get(s.gslb, d)
            else d !in s'.table && d !in s'.gslb
  {
    hide DefaultClusterName; hide NamespacedName; hide WithoutListed; hide Covered; hide Balanced; hide OwnerOf; hide Remove;
    var i, d := NamespacedName(namespace, name), DefaultClusterName(defaultBackend);
    assert Has(s.ingress2Cluster, i, d) <==> d in s.ingress2Cluster[i];
    assert RemoveKey(s.ingress2Cluster, i) == map[] <==> !exists j :: j in s.ingress2Cluster && j != i by {
      if j :| j in s.ingress2Cluster && j != i {
        assert j in RemoveKey(s.ingress2Cluster, i);
      }
    }
  }

  // ---------------------------------------------------------------- service events

  /** A deleted service is in no cluster any more; every other service of every cluster stays, with its instances. */
  lemma DeleteServiceIsExact(s: ClusterState, defaultBackend: string, namespace: string, name: string, c: string)
    requires Inv(s, defaultBackend)
    ensures var s', svc := DeleteService(s, namespace, name), NamespacedName(namespace, name);
            && (c in s'.table <==> c in s.table)
            && (c in s.table ==> s'.table[c] == s.table[c] - {svc})
            && (c in s'.gslb <==> c in s.gslb && exists t :: t in s.gslb[c] && t != svc)
            && (c in s'.gslb ==> s'.gslb[c] == s.gslb[c] - {svc})
  {
    hide NamespacedName; hide Owned; hide DefaultClusterName;
    var svc := NamespacedName(namespace, name);
    if c in s.gslb {
      assert s.gslb[c] - {svc} == map[] <==> !exists t :: t in s.gslb[c] && t != svc by {
        if t :| t in s.gslb[c] && t != svc {
          assert t in s.gslb[c] - {svc};
        }
      }
      if svc !in s.gslb[c] {
        assert s.gslb[c] - {svc} == s.gslb[c];
      }
    }
    if c in s.table && svc !in s.table[c] {
      assert s.table[c] - {svc} == s.table[c];
    }
  }

  /** The service has a target port for the cluster, or is the default backend, which needs none. */
  predicate Resolves(defaultBackend: string, service: Service, c: string) {
    TargetPortOf(ParsePort(c), service.ports) != TargetPort(0, "") || NamespacedName(service.namespace, service.name) == defaultBackend
  }

  lemma {:induction false} CompletesExactly(s: ClusterState, defaultBackend: string, service: Service, ep: Option<Endpoints>, order: seq<string>)
    ensures UpdateClusters(s, defaultBackend, service, ep, order).1 == Done <==>
            forall c :: c in order ==> c in s.table && Resolves(defaultBackend, service, c)
    decreases |order|
  {
    hide NamespacedName; hide ParsePort; hide TargetPortOf; hide NewSubCluster; hide NewGslbCluster; hide DeleteService;
    if order != [] {
      var svc, name := NamespacedName(service.namespace, service.name), order[0];
      assert forall c :: c in order <==> c == name || c in order[1..];
      if Resolves(defaultBackend, service, name) && name in s.table {
        var s' := s.(table := s.table[name := s.table[name][svc := NewSubCluster(ep, TargetPortOf(ParsePort(name), service.ports))]],
                     gslb := s.gslb[name := NewGslbCluster(service.namespace, service.name, map[])]);
        CompletesExactly(s', defaultBackend, service, ep, order[1..]);
      }
    }
  }

  /** UpdateService completes exactly when every cluster that its service leads to is in the table and finds a target port. */
  lemma UpdateServiceCompletesExactly(s: ClusterState, defaultBackend: string, service: Service, ep: Option<Endpoints>, order: seq<string>)
    requires ServiceOrder(s, service, order)
    ensures UpdateService(s, defaultBackend, service, ep, order).1 == Done <==>
            forall c :: Has(s.service2Cluster, NamespacedName(service.namespace, service.name), c) ==>
              c in s.table && Resolves(defaultBackend, service, c)
  {
    hide NamespacedName; hide UpdateClusters; hide Resolves;
    CompletesExactly(s, defaultBackend, service, ep, order);
    var svc := NamespacedName(service.namespace, service.name);
    assert forall c :: c in order <==> Has(s.service2Cluster, svc, c);
  }

  /** One that fails takes the service out of every cluster, those it had updated included, and leaves the other services there. */
  lemma {:induction false} FailedServiceUpdate(s: ClusterState, defaultBackend: string, service: Service, ep: Option<Endpoints>, order: seq<string>, c: string)
    requires Inv(s, defaultBackend) && forall n :: n in order ==> Has(s.service2Cluster, NamespacedName(service.namespace, service.name), n)
    requires UpdateClusters(s, defaultBackend, service, ep, order).1 == Failed
    ensures var s' := UpdateClusters(s, defaultBackend, service, ep, order).0;
            && (c in s'.table <==> c in s.table)
            && (c in s.table ==> s'.table[c] == s.table[c] - {NamespacedName(service.namespace, service.name)})
    decreases |order|
  {
    hide NamespacedName; hide ParsePort; hide TargetPortOf; hide NewSubCluster; hide NewGslbCluster; hide DeleteService; hide Inv; hide Has;
    var svc, name := NamespacedName(service.namespace, service.name), order[0];
    assert name in order;
    if Resolves(defaultBackend, service, name) {
      var instances := NewSubCluster(ep, TargetPortOf(ParsePort(name), service.ports));
      var s1 := s.(table := s.table[name := s.table[name][svc := instances]], gslb := s.gslb[name := NewGslbCluster(service.namespace, service.name, map[])]);
      SetServiceKeepsInv(s, defaultBackend, service, instances, name);
      assert forall n :: n in order[1..] ==> n in order;
      FailedServiceUpdate(s1, defaultBackend, service, ep, order[1..], c);
      assert s.table[name][svc := instances] - {svc} == s.table[name] - {svc};
    } else {
      DeleteServiceIsExact(s, defaultBackend, service.namespace, service.name, c);
    }
  }
}
