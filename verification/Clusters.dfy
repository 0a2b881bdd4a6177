/** The state of ClusterConfig (internal/bfeConfig/configs/clusterConfig.go) and its updates as functions. */
module Clusters {
  import opened Multimaps
  import opened Kube
  import opened Names

  datatype Backend = Backend(ip: string, port: int, weight: int)

  /** A slice of backends; the nil slice of missing endpoints is told apart from an empty one. */
  datatype SubCluster = NilSlice | Instances(list: seq<Backend>)

  type ClusterBackend = map<string, SubCluster>

  type GslbCluster = map<string, int>

  type Version = nat

  const DEFAULT_WEIGHT := 10

  datatype ClusterState = ClusterState(
    ingress2Cluster: Multimap<string, string>,
    service2Cluster: Multimap<string, string>,
    table: map<string, ClusterBackend>,
    gslb: map<string, GslbCluster>,
    tableVersion: Version,
    gslbVersion: Version,
    clock: Version)

  function InitialState(version: Version): ClusterState {
    ClusterState(map[], map[], map[], map[], version, version, version)
  }

  /** util.NewVersion hands out a version never used before: the next tick of the clock. */
  function SetVersion(s: ClusterState): ClusterState {
    s.(tableVersion := s.clock + 1, gslbVersion := s.clock + 1, clock := s.clock + 1)
  }

  // ---------------------------------------------------------------- building clusters

  predicate PortFits(wanted: BackendPort, p: ServicePort) {
    !((wanted.number > 0 && wanted.number != p.port) || (wanted.name != "" && wanted.name != p.name))
  }

  /** getTargetPort for a service that exists: the first fitting port decides. */
  function TargetPortOf(wanted: BackendPort, ports: seq<ServicePort>): TargetPort {
    if ports == [] then NO_PORT
    else if PortFits(wanted, ports[0]) then
      if ports[0].name != "" then TargetPort(0, ports[0].name)
      else if ports[0].targetPort.intVal > 0 then TargetPort(ports[0].targetPort.intVal, "")
      else NO_PORT
    else TargetPortOf(wanted, ports[1..])
  }

  function GetTargetPort(wanted: BackendPort, svc: Option<Service>): TargetPort {
    match svc
    case None => NO_PORT
    case Some(service) => TargetPortOf(wanted, service.ports)
  }

  function Instances1(addresses: seq<string>, port: int): seq<Backend> {
    seq(|addresses|, i requires 0 <= i < |addresses| => Backend(addresses[i], port, DEFAULT_WEIGHT))
  }

  function SubsetInstances(subset: Subset, ports: seq<EndpointPort>, port: TargetPort): seq<Backend> {
    if ports == [] then [] else
      var p := ports[|ports| - 1];
      SubsetInstances(subset, ports[..|ports| - 1], port) +
      if port.intVal == p.port || port.strVal == p.name then Instances1(subset.addresses, p.port) else []
  }

  function AllInstances(subsets: seq<Subset>, port: TargetPort): seq<Backend> {
    if subsets == [] then [] else
      var subset := subsets[|subsets| - 1];
      AllInstances(subsets[..|subsets| - 1], port) + SubsetInstances(subset, subset.ports, port)
  }

  /** newSubClusterBackend */
  function NewSubCluster(ep: Option<Endpoints>, port: TargetPort): SubCluster {
    match ep
    case None => NilSlice
    case Some(e) =>
      if port == NO_PORT then
        if |e.subsets| > 0 && |e.subsets[0].ports| > 0 && |e.subsets[0].addresses| > 0 then
          Instances([Backend(e.subsets[0].addresses[0], e.subsets[0].ports[0].port, DEFAULT_WEIGHT)])
        else Instances([])
      else Instances(AllInstances(e.subsets, port))
  }

  function Get<V>(m: map<string, V>, key: string): Option<V> {
    if key in m then Some(m[key]) else None
  }

  /** The services behind a backend: itself, or those of its balance entry. */
  function ServicesOf(namespace: string, service: string, balance: Balance): set<string> {
    if service in balance then set n | n in balance[service] :: NamespacedName(namespace, n)
    else {NamespacedName(namespace, service)}
  }

  /** newClusterBackend */
  function NewClusterBackend(namespace: string, backend: ServiceBackend, balance: Balance,
                             services: map<string, Service>, endpoints: map<string, Endpoints>): ClusterBackend {
    map s | s in ServicesOf(namespace, backend.name, balance) ::
      NewSubCluster(Get(endpoints, s), GetTargetPort(backend.port, Get(services, s)))
  }

  function LocalName(namespace: string, s: string): string {
    if |namespace| < |s| then s[|namespace| + 1..] else ""
  }

  function WeightOf(namespace: string, service: string, balance: Balance, s: string): int {
    if service in balance && LocalName(namespace, s) in balance[service] then balance[service][LocalName(namespace, s)]
    else DEFAULT_WEIGHT
  }

  /** newGslbClusterConf */
  function NewGslbCluster(namespace: string, service: string, balance: Balance): GslbCluster {
    map s | s in ServicesOf(namespace, service, balance) :: WeightOf(namespace, service, balance, s)
  }

  // ---------------------------------------------------------------- ingress events

  function ApplyPath(s: ClusterState, ingress: Ingress, backend: ServiceBackend, balance: Balance,
                     services: map<string, Service>, endpoints: map<string, Endpoints>): ClusterState {
    var ingressName := NamespacedName(ingress.namespace, ingress.name);
    var cluster := ClusterName(ingressName, backend);
    var gslb := NewGslbCluster(ingress.namespace, backend.name, balance);
    s.(table := s.table[cluster := NewClusterBackend(ingress.namespace, backend, balance, services, endpoints)],
       gslb := s.gslb[cluster := gslb],
       ingress2Cluster := Put(s.ingress2Cluster, ingressName, cluster),
       service2Cluster := PutAll(s.service2Cluster, gslb.Keys, cluster))
  }

  function ApplyPaths(s: ClusterState, ingress: Ingress, paths: seq<(string, HttpPath)>, balance: Balance,
                      services: map<string, Service>, endpoints: map<string, Endpoints>): ClusterState {
    if paths == [] then s else
      ApplyPath(ApplyPaths(s, ingress, paths[..|paths| - 1], balance, services, endpoints),
                ingress, paths[|paths| - 1].1.backend, balance, services, endpoints)
  }

  function AddDefaultBackend(s: ClusterState, defaultBackend: string, ep: Option<Endpoints>): ClusterState {
    var cluster := DefaultClusterName(defaultBackend);
    if ep.None? || cluster in s.table || NewSubCluster(ep, NO_PORT) == Instances([]) then s else
      s.(table := s.table[cluster := map[defaultBackend := NewSubCluster(ep, NO_PORT)]],
         gslb := s.gslb[cluster := map[defaultBackend := DEFAULT_WEIGHT]],
         service2Cluster := Put(s.service2Cluster, defaultBackend, cluster))
  }

  function DelDefaultBackend(s: ClusterState, defaultBackend: string): ClusterState {
    var cluster := DefaultClusterName(defaultBackend);
    s.(service2Cluster := Remove(s.service2Cluster, defaultBackend, cluster),
       table := s.table - {cluster},
       gslb := s.gslb - {cluster})
  }

  /** UpdateIngress; checkOk is the verdict of cluster_table_conf.ClusterTableConfCheck. */
  function UpdateIngress(s: ClusterState, defaultBackend: string, ingress: Ingress, balance: Balance,
                         services: map<string, Service>, endpoints: map<string, Endpoints>, checkOk: bool)
    : (ClusterState, bool)
  {
    if ingress.rules == [] then (s, true) else
      var applied := ApplyPaths(s, ingress, HostPaths(ingress.rules), balance, services, endpoints);
      var s' := if defaultBackend == "" then applied
                else AddDefaultBackend(applied, defaultBackend, Get(endpoints, defaultBackend));
      if checkOk then (SetVersion(s'), true)
      else (DeleteIngress(s', defaultBackend, ingress.namespace, ingress.name), false)
  }

  /** The clusters among cs that the table lists service under. */
  function Listed(table: map<string, ClusterBackend>, cs: set<string>, service: string): set<string> {
    set c | c in cs && c in table && service in table[c]
  }

  function WithoutListed(m: Multimap<string, string>, table: map<string, ClusterBackend>, cs: set<string>)
    : Multimap<string, string>
  {
    map s | s in m && m[s] - Listed(table, cs, s) != {} :: m[s] - Listed(table, cs, s)
  }

  function DropClusters(s: ClusterState, cs: set<string>): ClusterState {
    s.(service2Cluster := WithoutListed(s.service2Cluster, s.table, cs), table := s.table - cs, gslb := s.gslb - cs)
  }

  function DeleteIngress(s: ClusterState, defaultBackend: string, namespace: string, name: string): ClusterState {
    var ingressName := NamespacedName(namespace, name);
    if ingressName !in s.ingress2Cluster then s else
      var dropped := DropClusters(s, s.ingress2Cluster[ingressName]);
      var s' := dropped.(ingress2Cluster := RemoveKey(s.ingress2Cluster, ingressName));
      SetVersion(if defaultBackend != "" && s'.ingress2Cluster == map[] then DelDefaultBackend(s', defaultBackend) else s')
  }

  // ---------------------------------------------------------------- the same as relations on values

  predicate AppliesPath(s: ClusterState, ingress: Ingress, backend: ServiceBackend, balance: Balance,
                        services: map<string, Service>, endpoints: map<string, Endpoints>, s': ClusterState) {
    s' == ApplyPath(s, ingress, backend, balance, services, endpoints)
  }

  predicate AppliesPaths(s: ClusterState, ingress: Ingress, paths: seq<(string, HttpPath)>, balance: Balance,
                         services: map<string, Service>, endpoints: map<string, Endpoints>, s': ClusterState) {
    s' == ApplyPaths(s, ingress, paths, balance, services, endpoints)
  }

  predicate AddsDefault(s: ClusterState, defaultBackend: string, ep: Option<Endpoints>, s': ClusterState) {
    s' == AddDefaultBackend(s, defaultBackend, ep)
  }

  predicate Deletes(s: ClusterState, defaultBackend: string, namespace: string, name: string, s': ClusterState) {
    s' == DeleteIngress(s, defaultBackend, namespace, name)
  }

  predicate Updates(s: ClusterState, defaultBackend: string, ingress: Ingress, balance: Balance, services: map<string, Service>,
                    endpoints: map<string, Endpoints>, checkOk: bool, s': ClusterState, ok: bool) {
    (s', ok) == UpdateIngress(s, defaultBackend, ingress, balance, services, endpoints, checkOk)
  }

  // ---------------------------------------------------------------- service events

  datatype Outcome = Done | Failed | Crashed

  /** The loop of UpdateService over the service's clusters in the order Go hands them out. Writing
      into the entry of a cluster that the table no longer has is Go's assignment to a nil map. */
  function UpdateClusters(s: ClusterState, defaultBackend: string, service: Service, ep: Option<Endpoints>,
                          order: seq<string>): (ClusterState, Outcome)
    decreases |order|
  {
    if order == [] then (SetVersion(s), Done) else
      var serviceName := NamespacedName(service.namespace, service.name);
      var name := order[0];
      var port := TargetPortOf(ParsePort(name), service.ports);
      if port == NO_PORT && serviceName != defaultBackend then
        (DeleteService(s, service.namespace, service.name), Failed)
      else if name !in s.table then (s, Crashed)
      else
        var s' := s.(table := s.table[name := s.table[name][serviceName := NewSubCluster(ep, port)]],
                     gslb := s.gslb[name := NewGslbCluster(service.namespace, service.name, map[])]);
        UpdateClusters(s', defaultBackend, service, ep, order[1..])
  }

  function UpdateService(s: ClusterState, defaultBackend: string, service: Service, ep: Option<Endpoints>,
                         order: seq<string>): (ClusterState, Outcome)
  {
    if NamespacedName(service.namespace, service.name) !in s.service2Cluster then (s, Done)
    else UpdateClusters(s, defaultBackend, service, ep, order)
  }

  /** order is one way Go may hand out the clusters of the service. */
  ghost predicate ServiceOrder(s: ClusterState, service: Service, order: seq<string>) {
    Lists(order, Values(s.service2Cluster, NamespacedName(service.namespace, service.name)))
  }

  function DeleteService(s: ClusterState, namespace: string, name: string): ClusterState {
    var serviceName := NamespacedName(namespace, name);
    var cs := Values(s.service2Cluster, serviceName);
    SetVersion(
      s.(table := map c | c in s.table :: if c in cs then s.table[c] - {serviceName} else s.table[c],
         gslb := map c | c in s.gslb && !(c in cs && s.gslb[c] - {serviceName} == map[]) ::
                   if c in cs then s.gslb[c] - {serviceName} else s.gslb[c]))
  }
}
