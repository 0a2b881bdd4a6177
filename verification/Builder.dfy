/** ConfigBuilder (internal/bfeConfig/configBuilder.go) as one state machine: every method is one atomic step. */
module Builder {
  import opened Multimaps
  import opened Kube
  import opened Names
  import opened Reloads
  import opened Documents
  import opened Versions
  import ServerData
  import ServerInvariants
  import Clusters
  import ClusterInvariants
  import Tls

  datatype State = State(
    server: ServerData.ServerState, serverActive: ServerActive,
    cluster: Clusters.ClusterState, clusterActive: ClusterActive,
    tls: Tls.TlsState, tlsActive: TlsActive,
    env: Env)

  /** NewConfigBuilder starts with the version "init", which no file has been dumped with. */
  function InitialState(version: Version, env: Env): State {
    State(ServerData.InitialState(version), ServerActive(0, 0, 0),
          Clusters.InitialState(version), ClusterActive(0, 0),
          Tls.InitialState(version), TlsActive(0, 0), env)
  }

  // ---------------------------------------------------------------- the steps

  /** Which of the three configurations returned the error. */
  datatype Outcome = Done | ServerFailed | ClusterFailed | TlsFailed

  datatype Update = Update(ingress: Ingress, services: map<string, Service>, endpoints: map<string, Endpoints>, secrets: seq<Secret>)

  /** What is outside the program's control in UpdateIngress: the two renderings, the second one of the rollback, and
      the library's verdict on the cluster table. */
  datatype Choices = Choices(how: ServerData.Rendering, checkOk: bool, undo: ServerData.Rendering)

  /** The three Reload methods, each with the environment it leaves and whether it succeeds. */
  datatype Reloading = Reloading(env1: Env, ok1: bool, env2: Env, ok2: bool, env3: Env, ok3: bool)

  ghost function UpdateServer(x: State, defaultBackend: string, u: Update, c: Choices): (ServerData.ServerState, bool) {
    ServerData.UpdateIngress(x.server, defaultBackend, u.ingress, c.how)
  }

  ghost function UpdateCluster(x: State, defaultBackend: string, u: Update, c: Choices): (Clusters.ClusterState, bool) {
    Clusters.UpdateIngress(x.cluster, defaultBackend, u.ingress, ClusterInvariants.EffectiveBalance(u.ingress.weights),
                           u.services, u.endpoints, c.checkOk)
  }

  ghost function UpdateTls(x: State, u: Update): (Tls.TlsState, bool) {
    Tls.UpdateIngress(x.tls, u.ingress.namespace, u.ingress.name, u.secrets)
  }

  ghost function UpdateIngress(x: State, defaultBackend: string, u: Update, c: Choices): (State, Outcome) {
    var (s, ok1) := UpdateServer(x, defaultBackend, u, c);
    if !ok1 then (x.(server := s), ServerFailed) else
      var undone := ServerData.DeleteIngress(s, defaultBackend, u.ingress.namespace, u.ingress.name, c.undo);
      var (cl, ok2) := UpdateCluster(x, defaultBackend, u, c);
      if !ok2 then (x.(server := undone, cluster := cl), ClusterFailed) else
        var (t, ok3) := UpdateTls(x, u);
        if !ok3 then
          (x.(server := undone, cluster := Clusters.DeleteIngress(cl, defaultBackend, u.ingress.namespace, u.ingress.name), tls := t), TlsFailed)
        else (x.(server := s, cluster := cl, tls := t), Done)
  }

  function DeleteIngress(x: State, defaultBackend: string, namespace: string, name: string, how: ServerData.Rendering, env': Env): State {
    x.(server := ServerData.DeleteIngress(x.server, defaultBackend, namespace, name, how),
       cluster := Clusters.DeleteIngress(x.cluster, defaultBackend, namespace, name),
       tls := Tls.DeleteIngress(x.tls, namespace, name),
       env := env')
  }

  /** reload stops at the first of the three that fails. */
  function Reload(x: State, r: Reloading): State {
    if !r.ok1 then x.(env := r.env1) else
      var x1 := x.(serverActive := ServerActivated(x.server));
      if !r.ok2 then x1.(env := r.env2) else
        var x2 := x1.(clusterActive := ClusterActivated(x.cluster));
        if !r.ok3 then x2.(env := r.env3) else x2.(tlsActive := TlsActivated(x.tls), env := r.env3)
  }

  predicate Succeeds(r: Reloading) {
    r.ok1 && r.ok2 && r.ok3
  }

  datatype Event =
    | IngressUpdated(update: Update, choices: Choices)
    | IngressDeleted(namespace: string, name: string, how: ServerData.Rendering, env: Env)
    | ServiceUpdated(service: Service, ep: Option<Endpoints>, order: seq<string>)
    | ServiceDeleted(namespace: string, name: string)
    | SecretUpdated(secret: Secret)
    | SecretDeleted(namespace: string, name: string, env: Env)
    | Reloads(reloading: Reloading)

  ghost function Step(x: State, defaultBackend: string, e: Event): State {
    match e
    case IngressUpdated(u, c) => UpdateIngress(x, defaultBackend, u, c).0
    case IngressDeleted(ns, n, how, env') => DeleteIngress(x, defaultBackend, ns, n, how, env')
    case ServiceUpdated(service, ep, order) => x.(cluster := Clusters.UpdateService(x.cluster, defaultBackend, service, ep, order).0)
    case ServiceDeleted(ns, n) => x.(cluster := Clusters.DeleteService(x.cluster, ns, n))
    case SecretUpdated(secret) => x.(tls := Tls.UpdateSecret(x.tls, secret).0)
    case SecretDeleted(ns, n, env') => x.(tls := Tls.DeleteSecret(x.tls, ns, n), env := env')
    case Reloads(r) => Reload(x, r)
  }

  // ---------------------------------------------------------------- which steps are possible

  ghost predicate UpdatePossible(x: State, defaultBackend: string, u: Update, c: Choices) {
    var (s, ok) := UpdateServer(x, defaultBackend, u, c);
    && ServerData.UpdatePossible(x.server, u.ingress, c.how)
    && (ok && UpdateIngress(x, defaultBackend, u, c).1 != Done ==>
          ServerData.DeletePossible(s, u.ingress.namespace, u.ingress.name, c.undo))
  }

  ghost predicate ReloadPossible(x: State, r: Reloading) {
    && Reloaded(ServerDocs(x.server, x.serverActive), x.env, r.env1, r.ok1)
    && (r.ok1 ==> Reloaded(ClusterDocs(x.cluster, x.clusterActive), r.env1, r.env2, r.ok2))
    && (r.ok1 && r.ok2 ==> Reloaded(TlsDocs(x.tls, x.tlsActive), r.env2, r.env3, r.ok3))
  }

  /** Kubernetes names have no '_' or '/', iterations enumerate what they iterate over, the environment changes as the file
      operations allow, and a panic ends the run. */
  ghost predicate Possible(x: State, defaultBackend: string, e: Event) {
    match e
    case IngressUpdated(u, c) =>
      KubeName(u.ingress.namespace) && KubeName(u.ingress.name) && UpdatePossible(x, defaultBackend, u, c)
    case IngressDeleted(ns, n, how, env') =>
      ServerData.DeletePossible(x.server, ns, n, how) &&
      CertFilesDeleted(x.tls.certConf - Tls.DeleteIngress(x.tls, ns, n).certConf, x.env, env')
    case ServiceUpdated(service, ep, order) =>
      Clusters.ServiceOrder(x.cluster, service, order) &&
      Clusters.UpdateService(x.cluster, defaultBackend, service, ep, order).1 != Clusters.Crashed
    case ServiceDeleted(ns, n) => true
    case SecretUpdated(secret) => true
    case SecretDeleted(ns, n, env') => CertFilesDeleted(x.tls.certConf - Tls.DeleteSecret(x.tls, ns, n).certConf, x.env, env')
    case Reloads(r) => ReloadPossible(x, r)
  }

  /** The update changes the cluster tables under an old version that BFE has already been given. */
  ghost predicate Missed(s: Clusters.ClusterState, a: ClusterActive, defaultBackend: string, ingress: Ingress,
                         endpoints: map<string, Endpoints>, checkOk: bool) {
    Unversioned(s, defaultBackend, ingress, endpoints, checkOk) && (a.gslb == s.gslbVersion || a.table == s.tableVersion)
  }

  /** The step is not a missed update: BFE will be given whatever it changes. No ingress with a path is ever missed. */
  ghost predicate Noticed(x: State, defaultBackend: string, e: Event) {
    e.IngressUpdated? && UpdateServer(x, defaultBackend, e.update, e.choices).1 ==>
      !Missed(x.cluster, x.clusterActive, defaultBackend, e.update.ingress, e.update.endpoints, e.choices.checkOk)
  }

  // ---------------------------------------------------------------- runs

  ghost function RunFrom(x: State, defaultBackend: string, events: seq<Event>): State {
    if events == [] then x
    else Step(RunFrom(x, defaultBackend, events[..|events| - 1]), defaultBackend, events[|events| - 1])
  }

  ghost predicate PossibleRun(x: State, defaultBackend: string, events: seq<Event>) {
    events == [] ||
    (PossibleRun(x, defaultBackend, events[..|events| - 1]) &&
     Possible(RunFrom(x, defaultBackend, events[..|events| - 1]), defaultBackend, events[|events| - 1]))
  }

  ghost predicate NoticedRun(x: State, defaultBackend: string, events: seq<Event>) {
    events == [] ||
    (NoticedRun(x, defaultBackend, events[..|events| - 1]) &&
     Noticed(RunFrom(x, defaultBackend, events[..|events| - 1]), defaultBackend, events[|events| - 1]))
  }

  // ---------------------------------------------------------------- what every step keeps

  ghost predicate Indexed(x: State, defaultBackend: string) {
    ServerInvariants.CacheOk(x.server.cache) && ClusterInvariants.Inv(x.cluster, defaultBackend) && Tls.Inv(x.tls)
  }

  /** Whenever a recorded active version is the version in memory, disk and BFE hold that part of the configuration. */
  ghost predicate ReloadSafe(x: State) {
    && Safe(ServerDocs(x.server, x.serverActive), x.env)
    && Safe(ClusterDocs(x.cluster, x.clusterActive), x.env)
    && Safe(TlsDocs(x.tls, x.tlsActive), x.env)
  }

  /** Memory, disk and BFE hold the same configuration. */
  ghost predicate InAgreement(x: State) {
    && (forall d :: d in ServerDocs(x.server, x.serverActive) ==> Agrees(d, x.env))
    && (forall d :: d in ClusterDocs(x.cluster, x.clusterActive) ==> Agrees(d, x.env))
    && (forall d :: d in TlsDocs(x.tls, x.tlsActive) ==> Agrees(d, x.env))
  }
}
