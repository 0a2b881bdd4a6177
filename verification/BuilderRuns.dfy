/** What ConfigBuilder keeps over whole runs, under any interleaving of updates, failed dumps and failed reloads. */
module BuilderRuns {
  import opened Kube
  import opened Names
  import opened Reloads
  import opened Documents
  import opened ReloadContents
  import opened Versions
  import opened Builder
  import ServerData
  import ServerInvariants
  import Clusters
  import ClusterInvariants
  import Tls
  import RouteRules
  import RuleLists
  import FailedUpdates

  // ---------------------------------------------------------------- the indexes

  lemma UpdateKeepsIndexed(x: State, defaultBackend: string, u: Update, c: Choices)
    requires Indexed(x, defaultBackend) && UpdatePossible(x, defaultBackend, u, c)
    requires KubeName(u.ingress.namespace) && KubeName(u.ingress.name)
    ensures Indexed(UpdateIngress(x, defaultBackend, u, c).0, defaultBackend)
  {
    hide ServerData.UpdateIngress; hide ServerData.DeleteIngress; hide Clusters.UpdateIngress; hide Clusters.DeleteIngress; hide Tls.UpdateIngress;
    hide ServerInvariants.CacheOk; hide ClusterInvariants.Inv; hide Tls.Inv; hide ServerData.UpdatePossible; hide ServerData.DeletePossible;
    hide ClusterInvariants.EffectiveBalance; hide KubeName;
    var ns, n := u.ingress.namespace, u.ingress.name;
    ServerInvariants.UpdateIngressKeepsCacheOk(x.server, defaultBackend, u.ingress, c.how);
    ServerInvariants.DeleteIngressKeepsCacheOk(UpdateServer(x, defaultBackend, u, c).0, defaultBackend, ns, n, c.undo);
    ClusterInvariants.EffectiveBalanceOk(u.ingress.weights);
    ClusterInvariants.UpdateIngressKeepsInv(x.cluster, defaultBackend, u.ingress, ClusterInvariants.EffectiveBalance(u.ingress.weights),
                                            u.services, u.endpoints, c.checkOk);
    ClusterInvariants.DeleteIngressKeepsInv(UpdateCluster(x, defaultBackend, u, c).0, defaultBackend, ns, n);
    Tls.UpdateIngressKeepsInv(x.tls, ns, n, u.secrets);
  }

  lemma StepKeepsIndexed(x: State, defaultBackend: string, e: Event)
    requires Indexed(x, defaultBackend) && Possible(x, defaultBackend, e)
    ensures Indexed(Step(x, defaultBackend, e), defaultBackend)
  {
    hide UpdateIngress; hide UpdatePossible; hide ReloadPossible;
    hide ServerData.DeleteIngress; hide Clusters.DeleteIngress; hide Clusters.DeleteService; hide Clusters.UpdateService; hide Clusters.ServiceOrder;
    hide Tls.DeleteIngress; hide Tls.UpdateSecret; hide Tls.DeleteSecret; hide CertFilesDeleted; hide ServerData.DeletePossible;
    hide ServerInvariants.CacheOk; hide ClusterInvariants.Inv; hide Tls.Inv; hide KubeName;
    match e
    case IngressUpdated(u, c) => UpdateKeepsIndexed(x, defaultBackend, u, c);
    case IngressDeleted(ns, n, how, _) =>
      ServerInvariants.DeleteIngressKeepsCacheOk(x.server, defaultBackend, ns, n, how);
      ClusterInvariants.DeleteIngressKeepsInv(x.cluster, defaultBackend, ns, n);
      Tls.DeleteIngressKeepsInv(x.tls, ns, n);
    case ServiceUpdated(service, ep, order) => ClusterInvariants.UpdateServiceKeepsInv(x.cluster, defaultBackend, service, ep, order);
    case ServiceDeleted(ns, n) => ClusterInvariants.DeleteServiceKeepsInv(x.cluster, defaultBackend, ns, n);
    case SecretUpdated(secret) => Tls.UpdateSecretKeepsInv(x.tls, secret);
    case SecretDeleted(ns, n, _) => Tls.DeleteSecretKeepsInv(x.tls, ns, n);
    case Reloads(_) =>
  }

  // ---------------------------------------------------------------- files and versions

  /** Safety with the bounds that keep it: no version is from the future. */
  ghost predicate ServerSafe(s: ServerData.ServerState, a: ServerActive, env: Env) {
    Safe(ServerDocs(s, a), env) && ServerBounded(s, a)
  }

  ghost predicate ClusterSafe(s: Clusters.ClusterState, a: ClusterActive, env: Env) {
    Safe(ClusterDocs(s, a), env) && ClusterBounded(s, a)
  }

  ghost predicate TlsSafe(s: Tls.TlsState, a: TlsActive, env: Env) {
    Safe(TlsDocs(s, a), env) && TlsBounded(s, a)
  }

  ghost predicate AllSafe(x: State) {
    ServerSafe(x.server, x.serverActive, x.env) && ClusterSafe(x.cluster, x.clusterActive, x.env) && TlsSafe(x.tls, x.tlsActive, x.env)
  }

  lemma ServerMovesSafely(s: ServerData.ServerState, s': ServerData.ServerState, a: ServerActive, env: Env)
    requires ServerSafe(s, a, env) && ServerMoves(s, s')
    ensures ServerSafe(s', a, env)
  {
    hide ServerMoves; hide Newer; hide Safe; hide ServerDocs; hide ServerBounded;
    ServerMoved(s, s', a);
    NewerIsSafe(ServerDocs(s, a), ServerDocs(s', a), env);
  }

  lemma ClusterMovesSafely(s: Clusters.ClusterState, s': Clusters.ClusterState, a: ClusterActive, env: Env)
    requires ClusterSafe(s, a, env) && ClusterMoves(s, s')
    ensures ClusterSafe(s', a, env)
  {
  }

  /** The cert files go only together with a new version. */
  lemma TlsMovesSafely(s: Tls.TlsState, s': Tls.TlsState, a: TlsActive, env: Env, env': Env)
    requires TlsSafe(s, a, env) && TlsMoves(s, s') && CertFilesDeleted(s.certConf - s'.certConf, env, env')
    ensures TlsSafe(s', a, env')
  {
    hide TlsMoves; hide Newer; hide TlsDocs; hide TlsBounded; hide Agrees;
    TlsMoved(s, s', a);
    if s'.certConf == s.certConf {
      assert s.certConf - s'.certConf == {};
      NewerIsSafe(TlsDocs(s, a), TlsDocs(s', a), env);
    }
  }

  lemma AwayFromCerts(docs: seq<Doc>, names: set<string>, env: Env, env': Env)
    requires Safe(docs, env) && CertFilesDeleted(names, env, env')
    requires forall f: FileName :: f in AllFiles(docs) ==> !f.CertFile? && !f.KeyFile?
    ensures Safe(docs, env')
  {
  }

  /** A reload of one directory does not touch the others. */
  lemma SafeElsewhere(docs: seq<Doc>, others: seq<Doc>, env: Env, env': Env, ok: bool)
    requires Reloaded(docs, env, env', ok) && Safe(others, env) && AllFiles(others) !! AllFiles(docs)
    ensures Safe(others, env')
  {
    hide Reloaded; hide Agrees;
    forall i | 0 <= i < |others| && !Dirty(others[i])
      ensures Agrees(others[i], env')
    {
      assert others[i] in others;
      assert others[i].files.Keys <= AllFiles(others);
      ReloadElsewhere(docs, env, env', ok, others[i]);
    }
  }

  lemma AgreesElsewhere(docs: seq<Doc>, others: seq<Doc>, env: Env, env': Env, ok: bool)
    requires Reloaded(docs, env, env', ok) && AllFiles(others) !! AllFiles(docs)
    requires forall d :: d in others ==> Agrees(d, env)
    ensures forall d :: d in others ==> Agrees(d, env')
  {
    hide Reloaded; hide Agrees;
    forall d | d in others
      ensures Agrees(d, env')
    {
      assert d.files.Keys <= AllFiles(others);
      ReloadElsewhere(docs, env, env', ok, d);
    }
  }

  // ---------------------------------------------------------------- updates

  lemma ServerUpdateIsSafe(x: State, defaultBackend: string, u: Update, c: Choices)
    requires ServerSafe(x.server, x.serverActive, x.env)
    ensures var s := UpdateServer(x, defaultBackend, u, c).0;
            var undone := ServerData.DeleteIngress(s, defaultBackend, u.ingress.namespace, u.ingress.name, c.undo);
            ServerSafe(s, x.serverActive, x.env) && ServerSafe(undone, x.serverActive, x.env)
  {
    hide ServerData.UpdateIngress; hide ServerData.DeleteIngress; hide ServerSafe; hide ServerMoves;
    var s := UpdateServer(x, defaultBackend, u, c).0;
    ServerUpdateMoves(x.server, defaultBackend, u.ingress, c.how);
    ServerMovesSafely(x.server, s, x.serverActive, x.env);
    ServerDeleteMoves(s, defaultBackend, u.ingress.namespace, u.ingress.name, c.undo);
    ServerMovesSafely(s, ServerData.DeleteIngress(s, defaultBackend, u.ingress.namespace, u.ingress.name, c.undo), x.serverActive, x.env);
  }

  /** An ingress update breaks the reload safety of the clusters exactly when BFE misses it. */
  lemma ClusterUpdateSafeExactly(s: Clusters.ClusterState, a: ClusterActive, defaultBackend: string, ingress: Ingress, balance: Balance,
                                 services: map<string, Service>, endpoints: map<string, Endpoints>, checkOk: bool, env: Env)
    requires ClusterSafe(s, a, env) && ClusterInvariants.Inv(s, defaultBackend)
    ensures var s' := Clusters.UpdateIngress(s, defaultBackend, ingress, balance, services, endpoints, checkOk).0;
            && (Safe(ClusterDocs(s', a), env) <==> !Missed(s, a, defaultBackend, ingress, endpoints, checkOk))
            && ClusterBounded(s', a)
  {
    hide Clusters.UpdateIngress; hide ClusterMoves; hide Unversioned; hide ClusterDocs; hide Safe; hide ClusterInvariants.Inv;
    var s' := Clusters.UpdateIngress(s, defaultBackend, ingress, balance, services, endpoints, checkOk).0;
    UnversionedExactly(s, defaultBackend, ingress, balance, services, endpoints, checkOk);
    if ClusterMoves(s, s') {
      ClusterMovesSafely(s, s', a, env);
    } else {
      UnversionedChange(s, defaultBackend, ingress, balance, services, endpoints, checkOk);
      SameVersionsNewTables(s, s', a, env);
    }
  }

  lemma UnversionedChange(s: Clusters.ClusterState, defaultBackend: string, ingress: Ingress, balance: Balance,
                          services: map<string, Service>, endpoints: map<string, Endpoints>, checkOk: bool)
    requires Unversioned(s, defaultBackend, ingress, endpoints, checkOk) && ClusterInvariants.Inv(s, defaultBackend)
    ensures var s' := Clusters.UpdateIngress(s, defaultBackend, ingress, balance, services, endpoints, checkOk).0;
            s'.tableVersion == s.tableVersion && s'.gslbVersion == s.gslbVersion && s'.clock == s.clock && s'.table != s.table && s'.gslb != s.gslb
  {
    UpdateVersions(s, defaultBackend, ingress, balance, services, endpoints, checkOk);
    var d := DefaultClusterName(defaultBackend);
    assert d !in s.gslb;
    hide Clusters.UpdateIngress; hide NamespacedName; hide DefaultClusterName; hide HostPaths; hide Clusters.NewSubCluster; hide Clusters.Get;
    hide ClusterInvariants.Inv;
  }

  lemma SameVersionsNewTables(s: Clusters.ClusterState, s': Clusters.ClusterState, a: ClusterActive, env: Env)
    requires Safe(ClusterDocs(s, a), env) && s'.gslb != s.gslb && s'.table != s.table
    requires s'.tableVersion == s.tableVersion && s'.gslbVersion == s.gslbVersion
    ensures Safe(ClusterDocs(s', a), env) <==> a.gslb != s.gslbVersion && a.table != s.tableVersion
  {
    var docs, docs' := ClusterDocs(s, a), ClusterDocs(s', a);
    assert docs'[0].files[GslbData] == Gslb(s.gslbVersion, s'.gslb) != docs[0].files[GslbData];
    assert docs'[1].files[ClusterTableData] == ClusterTable(s.tableVersion, s'.table) != docs[1].files[ClusterTableData];
    if !Dirty(docs[0]) {
      assert Agrees(docs[0], env) && !Agrees(docs'[0], env) && !Dirty(docs'[0]);
    }
    if !Dirty(docs[1]) {
      assert Agrees(docs[1], env) && !Agrees(docs'[1], env) && !Dirty(docs'[1]);
    }
  }

  lemma TlsUpdateIsSafe(x: State, u: Update)
    requires TlsSafe(x.tls, x.tlsActive, x.env)
    ensures TlsSafe(UpdateTls(x, u).0, x.tlsActive, x.env)
  {
    hide Tls.UpdateIngress; hide TlsSafe; hide TlsMoves;
    TlsUpdateMoves(x.tls, u.ingress.namespace, u.ingress.name, u.secrets);
    TlsGrows(x.tls, u.ingress.namespace, u.ingress.name, u.secrets);
    assert x.tls.certConf - UpdateTls(x, u).0.certConf == {};
    TlsMovesSafely(x.tls, UpdateTls(x, u).0, x.tlsActive, x.env, x.env);
  }

  lemma ClusterUpdateIsSafe(x: State, defaultBackend: string, u: Update, c: Choices)
    requires ClusterSafe(x.cluster, x.clusterActive, x.env) && ClusterInvariants.Inv(x.cluster, defaultBackend)
    requires !Missed(x.cluster, x.clusterActive, defaultBackend, u.ingress, u.endpoints, c.checkOk)
    ensures var cl := UpdateCluster(x, defaultBackend, u, c).0;
            && ClusterSafe(cl, x.clusterActive, x.env)
            && ClusterSafe(Clusters.DeleteIngress(cl, defaultBackend, u.ingress.namespace, u.ingress.name), x.clusterActive, x.env)
  {
    hide Clusters.UpdateIngress; hide Clusters.DeleteIngress; hide ClusterMoves; hide Missed; hide ClusterInvariants.Inv; hide ClusterDocs; hide Safe;
    hide ClusterBounded;
    var cl := UpdateCluster(x, defaultBackend, u, c).0;
    ClusterUpdateSafeExactly(x.cluster, x.clusterActive, defaultBackend, u.ingress, ClusterInvariants.EffectiveBalance(u.ingress.weights),
                             u.services, u.endpoints, c.checkOk, x.env);
    ClusterDeleteMoves(cl, defaultBackend, u.ingress.namespace, u.ingress.name);
    ClusterMovesSafely(cl, Clusters.DeleteIngress(cl, defaultBackend, u.ingress.namespace, u.ingress.name), x.clusterActive, x.env);
  }

  lemma UpdateIsSafe(x: State, defaultBackend: string, u: Update, c: Choices)
    requires AllSafe(x) && Indexed(x, defaultBackend) && Noticed(x, defaultBackend, IngressUpdated(u, c))
    ensures AllSafe(UpdateIngress(x, defaultBackend, u, c).0)
  {
    hide ServerSafe; hide ClusterSafe; hide TlsSafe; hide UpdateServer; hide UpdateCluster; hide UpdateTls; hide Missed;
    hide ServerData.DeleteIngress; hide Clusters.DeleteIngress; hide ClusterInvariants.Inv; hide Tls.Inv; hide ServerInvariants.CacheOk;
    ServerUpdateIsSafe(x, defaultBackend, u, c);
    if UpdateServer(x, defaultBackend, u, c).1 {
      ClusterUpdateIsSafe(x, defaultBackend, u, c);
      TlsUpdateIsSafe(x, u);
    }
  }

  /** A missed update is one that the table check rejects, so its effect on the cluster tables stays. */
  lemma MissedIsUnsafe(x: State, defaultBackend: string, u: Update, c: Choices)
    requires AllSafe(x) && Indexed(x, defaultBackend) && !Noticed(x, defaultBackend, IngressUpdated(u, c))
    ensures !ReloadSafe(UpdateIngress(x, defaultBackend, u, c).0)
  {
    hide ServerData.UpdateIngress; hide ServerData.DeleteIngress; hide UpdateTls; hide Clusters.DeleteIngress; hide ServerSafe; hide TlsSafe;
    hide ClusterInvariants.Inv; hide Tls.Inv; hide ServerInvariants.CacheOk; hide Safe; hide ClusterDocs; hide ServerDocs; hide TlsDocs; hide HostPaths;
    hide DefaultClusterName; hide NamespacedName; hide Clusters.NewSubCluster; hide Clusters.ApplyPaths; hide Clusters.AddDefaultBackend; hide ClusterBounded;
    ClusterUpdateSafeExactly(x.cluster, x.clusterActive, defaultBackend, u.ingress, ClusterInvariants.EffectiveBalance(u.ingress.weights),
                             u.services, u.endpoints, c.checkOk, x.env);
  }

  lemma {:induction false} SecretsGrow(s: Tls.TlsState, secrets: seq<Secret>)
    ensures s.certConf <= Tls.UpdateSecrets(s, secrets).0.certConf
  {
    hide Tls.Secrets; hide NamespacedName;
    if secrets != [] {
      SecretsGrow(s, secrets[..|secrets| - 1]);
    }
  }

  lemma TlsGrows(s: Tls.TlsState, namespace: string, name: string, secrets: seq<Secret>)
    ensures s.certConf <= Tls.UpdateIngress(s, namespace, name, secrets).0.certConf
  {
    AssociateMoves(s, NamespacedName(namespace, name), secrets);
    SecretsGrow(Tls.Associate(s, NamespacedName(namespace, name), secrets), secrets);
  }

  lemma DeletedIsSafe(x: State, t: Tls.TlsState, cl: Clusters.ClusterState, s: ServerData.ServerState, env': Env)
    requires AllSafe(x) && ServerMoves(x.server, s) && ClusterMoves(x.cluster, cl) && TlsMoves(x.tls, t)
    requires CertFilesDeleted(x.tls.certConf - t.certConf, x.env, env')
    ensures AllSafe(x.(server := s, cluster := cl, tls := t, env := env'))
  {
    hide Safe; hide ServerDocs; hide ClusterDocs; hide CertFilesDeleted; hide AllFiles; hide ServerMoves; hide ClusterMoves; hide TlsMoves; hide TlsSafe; hide CertFileNames;
    hide TlsDocs; hide Apart; hide ServerBounded; hide ClusterBounded;
    ServerMovesSafely(x.server, s, x.serverActive, x.env);
    ClusterMovesSafely(x.cluster, cl, x.clusterActive, x.env);
    TlsMovesSafely(x.tls, t, x.tlsActive, x.env, env');
    FilesApart(s, cl, t, x.serverActive, x.clusterActive, x.tlsActive);
    AwayFromCerts(ServerDocs(s, x.serverActive), x.tls.certConf - t.certConf, x.env, env');
    AwayFromCerts(ClusterDocs(cl, x.clusterActive), x.tls.certConf - t.certConf, x.env, env');
  }

  // ---------------------------------------------------------------- reloads

  lemma ServerReloaded(x: State, env': Env, ok: bool)
    requires AllSafe(x) && Reloaded(ServerDocs(x.server, x.serverActive), x.env, env', ok)
    ensures AllSafe(x.(env := env', serverActive := if ok then ServerActivated(x.server) else x.serverActive))
    ensures ok ==> forall d :: d in ServerDocs(x.server, ServerActivated(x.server)) ==> Agrees(d, env')
  {
    hide Safe; hide Reloaded; hide Agrees; hide ServerDocs; hide ClusterDocs; hide TlsDocs; hide AllFiles; hide Apart; hide CertFileNames;
    var docs := ServerDocs(x.server, x.serverActive);
    FilesApart(x.server, x.cluster, x.tls, x.serverActive, x.clusterActive, x.tlsActive);
    ActivatedDocs(x.server, x.cluster, x.tls, x.serverActive, x.clusterActive, x.tlsActive);
    ReloadIsSafe(docs, x.env, env', ok);
    SafeElsewhere(docs, ClusterDocs(x.cluster, x.clusterActive), x.env, env', ok);
    SafeElsewhere(docs, TlsDocs(x.tls, x.tlsActive), x.env, env', ok);
    if ok {
      AllActivated(docs, env');
    }
  }

  lemma ClusterReloaded(x: State, env': Env, ok: bool)
    requires AllSafe(x) && Reloaded(ClusterDocs(x.cluster, x.clusterActive), x.env, env', ok)
    ensures AllSafe(x.(env := env', clusterActive := if ok then ClusterActivated(x.cluster) else x.clusterActive))
    ensures ok ==> forall d :: d in ClusterDocs(x.cluster, ClusterActivated(x.cluster)) ==> Agrees(d, env')
  {
    hide Safe; hide Reloaded; hide Agrees; hide ServerDocs; hide ClusterDocs; hide TlsDocs; hide AllFiles; hide Apart; hide CertFileNames;
    var docs := ClusterDocs(x.cluster, x.clusterActive);
    FilesApart(x.server, x.cluster, x.tls, x.serverActive, x.clusterActive, x.tlsActive);
    ActivatedDocs(x.server, x.cluster, x.tls, x.serverActive, x.clusterActive, x.tlsActive);
    ReloadIsSafe(docs, x.env, env', ok);
    SafeElsewhere(docs, ServerDocs(x.server, x.serverActive), x.env, env', ok);
    SafeElsewhere(docs, TlsDocs(x.tls, x.tlsActive), x.env, env', ok);
    if ok {
      AllActivated(docs, env');
    }
  }

  lemma TlsReloaded(x: State, env': Env, ok: bool)
    requires AllSafe(x) && Reloaded(TlsDocs(x.tls, x.tlsActive), x.env, env', ok)
    ensures AllSafe(x.(env := env', tlsActive := if ok then TlsActivated(x.tls) else x.tlsActive))
    ensures ok ==> forall d :: d in TlsDocs(x.tls, TlsActivated(x.tls)) ==> Agrees(d, env')
  {
    hide Safe; hide Reloaded; hide Agrees; hide ServerDocs; hide ClusterDocs; hide TlsDocs; hide AllFiles; hide Apart; hide CertFileNames;
    var docs := TlsDocs(x.tls, x.tlsActive);
    FilesApart(x.server, x.cluster, x.tls, x.serverActive, x.clusterActive, x.tlsActive);
    ActivatedDocs(x.server, x.cluster, x.tls, x.serverActive, x.clusterActive, x.tlsActive);
    ReloadIsSafe(docs, x.env, env', ok);
    SafeElsewhere(docs, ServerDocs(x.server, x.serverActive), x.env, env', ok);
    SafeElsewhere(docs, ClusterDocs(x.cluster, x.clusterActive), x.env, env', ok);
    if ok {
      AllActivated(docs, env');
    }
  }

  lemma AllActivated(docs: seq<Doc>, env: Env)
    requires forall i :: 0 <= i < |docs| ==> Agrees(docs[i], env)
    ensures forall d :: d in Activated(docs) ==> Agrees(d, env)
  {
  }

  lemma ReloadIsAllSafe(x: State, r: Reloading)
    requires AllSafe(x) && ReloadPossible(x, r)
    ensures AllSafe(Reload(x, r))
  {
    hide AllSafe; hide Reloaded; hide ServerDocs; hide ClusterDocs; hide TlsDocs;
    ServerReloaded(x, r.env1, r.ok1);
    if r.ok1 {
      var x1 := x.(env := r.env1, serverActive := ServerActivated(x.server));
      ClusterReloaded(x1, r.env2, r.ok2);
      if r.ok2 {
        TlsReloaded(x1.(env := r.env2, clusterActive := ClusterActivated(x.cluster)), r.env3, r.ok3);
      }
    }
  }

  // ---------------------------------------------------------------- runs

  lemma StepKeepsSafe(x: State, defaultBackend: string, e: Event)
    requires AllSafe(x) && Indexed(x, defaultBackend) && Possible(x, defaultBackend, e) && Noticed(x, defaultBackend, e)
    ensures AllSafe(Step(x, defaultBackend, e))
  {
    hide AllSafe; hide Indexed; hide UpdateIngress; hide UpdatePossible; hide ReloadPossible; hide Reload; hide Noticed;
    hide ServerData.DeleteIngress; hide Clusters.DeleteIngress; hide Clusters.DeleteService; hide Clusters.UpdateClusters; hide Clusters.ServiceOrder;
    hide Tls.DeleteIngress; hide Tls.UpdateSecret; hide Tls.DeleteSecret; hide ServerData.DeletePossible; hide KubeName; hide NamespacedName;
    match e
    case IngressUpdated(u, c) => UpdateIsSafe(x, defaultBackend, u, c);
    case IngressDeleted(ns, n, how, env') =>
      ServerDeleteMoves(x.server, defaultBackend, ns, n, how);
      ClusterDeleteMoves(x.cluster, defaultBackend, ns, n);
      TlsDeleteMoves(x.tls, ns, n);
      DeletedIsSafe(x, Tls.DeleteIngress(x.tls, ns, n), Clusters.DeleteIngress(x.cluster, defaultBackend, ns, n),
                    ServerData.DeleteIngress(x.server, defaultBackend, ns, n, how), env');
    case ServiceUpdated(service, ep, order) =>
      var cl := Clusters.UpdateService(x.cluster, defaultBackend, service, ep, order).0;
      if NamespacedName(service.namespace, service.name) in x.cluster.service2Cluster {
        ServiceUpdateMoves(x.cluster, defaultBackend, service, ep, order);
      }
      assert x == x.(server := x.server, tls := x.tls, env := x.env);
      ClusterStep(x, cl);
    case ServiceDeleted(ns, n) =>
      ServiceDeleteMoves(x.cluster, ns, n);
      ClusterStep(x, Clusters.DeleteService(x.cluster, ns, n));
    case SecretUpdated(secret) =>
      SecretUpdateMoves(x.tls, secret);
      SecretGrows(x.tls, secret);
      TlsStep(x, Tls.UpdateSecret(x.tls, secret).0, x.env);
    case SecretDeleted(ns, n, env') =>
      SecretDeleteMoves(x.tls, ns, n);
      TlsStep(x, Tls.DeleteSecret(x.tls, ns, n), env');
    case Reloads(r) => ReloadIsAllSafe(x, r);
  }

  lemma ClusterStep(x: State, cl: Clusters.ClusterState)
    requires AllSafe(x) && ClusterMoves(x.cluster, cl)
    ensures AllSafe(x.(cluster := cl))
  {
  }

  lemma SecretGrows(t: Tls.TlsState, secret: Secret)
    ensures t.certConf - Tls.UpdateSecret(t, secret).0.certConf == {}
  {
  }

  lemma TlsStep(x: State, t: Tls.TlsState, env': Env)
    requires AllSafe(x) && TlsMoves(x.tls, t) && CertFilesDeleted(x.tls.certConf - t.certConf, x.env, env')
    ensures AllSafe(x.(tls := t, env := env'))
  {
    hide AllSafe;
    DeletedIsSafe(x, t, x.cluster, x.server, env');
    assert x.(tls := t, env := env') == x.(server := x.server, cluster := x.cluster, tls := t, env := env');
  }

  lemma StartIsIndexed(version: Version, env: Env, defaultBackend: string)
    ensures Indexed(InitialState(version, env), defaultBackend)
  {
  }

  /** After every possible run: the rule cache, the clusters and the certificates satisfy their invariants, so whatever they
      say of one state holds in all of them. */
  lemma {:induction false} EveryRunKeepsIndexes(version: Version, env: Env, defaultBackend: string, events: seq<Event>)
    requires PossibleRun(InitialState(version, env), defaultBackend, events)
    ensures Indexed(RunFrom(InitialState(version, env), defaultBackend, events), defaultBackend)
  {
    hide Indexed; hide Step; hide Possible;
    var start := InitialState(version, env);
    if events == [] {
      StartIsIndexed(version, env, defaultBackend);
      return;
    }
    EveryRunKeepsIndexes(version, env, defaultBackend, events[..|events| - 1]);
    StepKeepsIndexed(RunFrom(start, defaultBackend, events[..|events| - 1]), defaultBackend, events[|events| - 1]);
  }

  lemma {:induction false} EveryRunIsAllSafe(version: Version, env: Env, defaultBackend: string, events: seq<Event>)
    requires version > 0
    requires var start := InitialState(version, env); PossibleRun(start, defaultBackend, events) && NoticedRun(start, defaultBackend, events)
    ensures AllSafe(RunFrom(InitialState(version, env), defaultBackend, events))
  {
    hide AllSafe; hide Indexed; hide Step; hide Possible; hide Noticed;
    var start := InitialState(version, env);
    if events == [] {
      StartIsSafe(version, env);
      return;
    }
    EveryRunIsAllSafe(version, env, defaultBackend, events[..|events| - 1]);
    EveryRunKeepsIndexes(version, env, defaultBackend, events[..|events| - 1]);
    StepKeepsSafe(RunFrom(start, defaultBackend, events[..|events| - 1]), defaultBackend, events[|events| - 1]);
  }

  lemma StartIsSafe(version: Version, env: Env)
    requires version > 0
    ensures AllSafe(InitialState(version, env))
  {
  }

  lemma AllSafeIsReloadSafe(x: State)
    requires AllSafe(x)
    ensures ReloadSafe(x)
  {
    hide Safe; hide ServerDocs; hide ClusterDocs; hide TlsDocs;
  }

  /** Reload safety over whole runs: under any interleaving of updates, failed dumps and failed reloads, a part whose recorded
      version is the one in memory is on disk and in BFE as it is in memory, until BFE misses an update. */
  lemma EveryRunIsReloadSafe(version: Version, env: Env, defaultBackend: string, events: seq<Event>)
    requires version > 0
    requires var start := InitialState(version, env); PossibleRun(start, defaultBackend, events) && NoticedRun(start, defaultBackend, events)
    ensures ReloadSafe(RunFrom(InitialState(version, env), defaultBackend, events))
    ensures CurrentInPlace(RunFrom(InitialState(version, env), defaultBackend, events))
  {
    hide *;
    EveryRunIsAllSafe(version, env, defaultBackend, events);
    AllSafeIsReloadSafe(RunFrom(InitialState(version, env), defaultBackend, events));
    EveryRunKeepsIndexes(version, env, defaultBackend, events);
    IndexedTls(RunFrom(InitialState(version, env), defaultBackend, events), defaultBackend);
    SafeExactly(RunFrom(InitialState(version, env), defaultBackend, events));
  }

  lemma IndexedTls(x: State, defaultBackend: string)
    requires Indexed(x, defaultBackend)
    ensures Tls.Inv(x.tls)
  {
  }

  /** A possible run is reload safe all the way exactly when BFE misses none of its updates. */
  lemma {:induction false} EveryRunSafeExactly(version: Version, env: Env, defaultBackend: string, events: seq<Event>)
    requires version > 0 && PossibleRun(InitialState(version, env), defaultBackend, events)
    ensures NoticedRun(InitialState(version, env), defaultBackend, events) <==>
            forall n :: 0 <= n <= |events| ==> ReloadSafe(RunFrom(InitialState(version, env), defaultBackend, events[..n]))
  {
    hide ReloadSafe; hide AllSafe; hide Indexed; hide Step; hide Possible; hide Noticed;
    var start := InitialState(version, env);
    if events == [] {
      StartIsSafe(version, env);
      AllSafeIsReloadSafe(start);
      return;
    }
    var front, last := events[..|events| - 1], events[|events| - 1];
    EveryRunSafeExactly(version, env, defaultBackend, front);
    assert forall n :: 0 <= n <= |front| ==> events[..n] == front[..n];
    assert events[..|events|] == events && front[..|front|] == front;
    if NoticedRun(start, defaultBackend, front) {
      EveryRunIsAllSafe(version, env, defaultBackend, front);
      EveryRunKeepsIndexes(version, env, defaultBackend, front);
      LastStepSafeExactly(RunFrom(start, defaultBackend, front), defaultBackend, last);
    }
  }

  /** From a safe state a step is safe exactly when BFE does not miss it. */
  lemma LastStepSafeExactly(x: State, defaultBackend: string, e: Event)
    requires AllSafe(x) && Indexed(x, defaultBackend) && Possible(x, defaultBackend, e)
    ensures ReloadSafe(Step(x, defaultBackend, e)) <==> Noticed(x, defaultBackend, e)
  {
    hide ReloadSafe; hide AllSafe; hide Indexed; hide Possible; hide UpdateIngress; hide UpdateServer; hide Missed;
    if Noticed(x, defaultBackend, e) {
      StepKeepsSafe(x, defaultBackend, e);
      AllSafeIsReloadSafe(Step(x, defaultBackend, e));
    } else {
      MissedIsUnsafe(x, defaultBackend, e.update, e.choices);
    }
  }

  /** A successful reload makes memory, disk and BFE agree without changing memory. */
  lemma SuccessfulReloadAgrees(x: State, r: Reloading)
    requires AllSafe(x) && ReloadPossible(x, r) && Succeeds(r)
    ensures var x' := Reload(x, r);
            InAgreement(x') && x'.server == x.server && x'.cluster == x.cluster && x'.tls == x.tls
  {
    hide AllSafe; hide Reloaded; hide ServerDocs; hide ClusterDocs; hide TlsDocs; hide Agrees; hide ServerActivated; hide ClusterActivated; hide TlsActivated;
    hide AllFiles; hide CertFileNames;
    ServerReloaded(x, r.env1, true);
    var x1 := x.(env := r.env1, serverActive := ServerActivated(x.server));
    ClusterReloaded(x1, r.env2, true);
    var x2 := x1.(env := r.env2, clusterActive := ClusterActivated(x.cluster));
    TlsReloaded(x2, r.env3, true);
    FilesApart(x.server, x.cluster, x.tls, ServerActivated(x.server), ClusterActivated(x.cluster), TlsActivated(x.tls));
    FilesApart(x.server, x.cluster, x.tls, x2.serverActive, x.clusterActive, x.tlsActive);
    AgreesElsewhere(ClusterDocs(x.cluster, x.clusterActive), ServerDocs(x.server, x2.serverActive), r.env1, r.env2, true);
    AgreesElsewhere(TlsDocs(x.tls, x.tlsActive), ServerDocs(x.server, x2.serverActive), r.env2, r.env3, true);
    AgreesElsewhere(TlsDocs(x.tls, x.tlsActive), ClusterDocs(x.cluster, x2.clusterActive), r.env2, r.env3, true);
  }

  /** A successful reload at the end of any such run leaves every file, on disk and in BFE, as the configuration in memory is. */
  lemma SuccessfulReloadWritesAll(version: Version, env: Env, defaultBackend: string, events: seq<Event>, r: Reloading)
    requires version > 0
    requires var start := InitialState(version, env); PossibleRun(start, defaultBackend, events) && NoticedRun(start, defaultBackend, events)
    requires ReloadPossible(RunFrom(InitialState(version, env), defaultBackend, events), r) && Succeeds(r)
    ensures AllInPlace(Reload(RunFrom(InitialState(version, env), defaultBackend, events), r))
  {
    hide *;
    var x := RunFrom(InitialState(version, env), defaultBackend, events);
    EveryRunIsAllSafe(version, env, defaultBackend, events);
    EveryRunKeepsIndexes(version, env, defaultBackend, events);
    IndexedTls(x, defaultBackend);
    SuccessfulReloadAgrees(x, r);
    AgreementExactly(Reload(x, r));
  }

  /** With nothing changed since, the next reload succeeds without any I/O and changes nothing. */
  lemma SecondReloadIsIdle(x: State, r: Reloading, r': Reloading)
    requires ReloadPossible(x, r) && Succeeds(r) && ReloadPossible(Reload(x, r), r')
    ensures Succeeds(r') && r'.env3.calls == r.env3.calls && Reload(Reload(x, r), r') == Reload(x, r)
  {
  }

  // ---------------------------------------------------------------- a run that is not safe

  const ONE_INSTANCE := Endpoints([Subset(["a"], [EndpointPort("", 80)])])

  /** An ingress with one rule whose HTTP part is there and has no paths, and a default backend that has an instance. */
  const PATHLESS := Update(Ingress("n", "i", map[], Absent, 0, [IngressRule("", [])]), map[], map["d" := ONE_INSTANCE], [])

  const NO_ORDER := ServerData.Rendering(RuleLists.Enumeration([], map[]), true, RuleLists.Enumeration([], map[]))

  const REJECTED := Choices(NO_ORDER, false, NO_ORDER)

  lemma PathlessIsUnversioned(version: Version)
    ensures Unversioned(Clusters.InitialState(version), "d", PATHLESS.ingress, PATHLESS.endpoints, false)
  {
    assert HostPaths([IngressRule("", [])]) == [];
  }

  lemma PathlessReachesClusters(x: State)
    requires x.server == ServerData.InitialState(x.server.clock)
    ensures UpdateServer(x, "d", PATHLESS, REJECTED).1 && Possible(x, "d", IngressUpdated(PATHLESS, REJECTED))
  {
    var c := ServerData.AfterUpdateCache(x.server, PATHLESS.ingress).0.cache;
    assert HostPaths(PATHLESS.ingress.rules) == [];
    assert c == RouteRules.EMPTY_CACHE;
    FailedUpdates.EmptyRenders("d");
    hide ServerData.Render; hide HostPaths; hide UpdateCluster; hide UpdateTls;
  }

  lemma TwoSteps(x: State, defaultBackend: string, e: Event, e': Event)
    ensures RunFrom(x, defaultBackend, [e, e']) == Step(Step(x, defaultBackend, e), defaultBackend, e')
    ensures Possible(x, defaultBackend, e) && Possible(Step(x, defaultBackend, e), defaultBackend, e') ==> PossibleRun(x, defaultBackend, [e, e'])
  {
    hide Step; hide Possible;
    var one, two := [e], [e, e'];
    assert two[..|two| - 1] == one && one[..|one| - 1] == [];
    assert RunFrom(x, defaultBackend, one) == Step(x, defaultBackend, e);
    assert Possible(x, defaultBackend, e) ==> PossibleRun(x, defaultBackend, one);
  }

  lemma PathlessIsMissed(x: State, version: Version)
    requires x.cluster == Clusters.InitialState(version) && x.clusterActive == ClusterActivated(x.cluster)
    requires x.server == ServerData.InitialState(x.server.clock)
    ensures Possible(x, "d", IngressUpdated(PATHLESS, REJECTED)) && !Noticed(x, "d", IngressUpdated(PATHLESS, REJECTED))
  {
    hide Unversioned; hide UpdatePossible; hide UpdateServer;
    PathlessIsUnversioned(version);
    PathlessReachesClusters(x);
  }

  /** In a new builder, a successful reload and then the pathless ingress: the default backend is in the cluster tables, the
      versions say that BFE has them, and BFE does not. */
  lemma UnsafeRun(version: Version, env: Env) returns (r: Reloading)
    requires version > 0
    ensures var events := [Reloads(r), IngressUpdated(PATHLESS, REJECTED)]; var start := InitialState(version, env);
            Succeeds(r) && PossibleRun(start, "d", events) && !ReloadSafe(RunFrom(start, "d", events))
  {
    hide AllSafe; hide Indexed; hide ReloadPossible; hide UpdateIngress; hide ReloadSafe; hide UpdateServer; hide UpdatePossible; hide Noticed;
    hide RunFrom; hide PossibleRun; hide KubeName; hide PATHLESS; hide REJECTED;
    var start := InitialState(version, env);
    r := ReloadCanSucceed(start);
    var x := Reload(start, r);
    StartIsSafe(version, env);
    ReloadIsAllSafe(start, r);
    StartIsIndexed(version, env, "d");
    StepKeepsIndexed(start, "d", Reloads(r));
    PathlessIsMissed(x, version);
    LastStepSafeExactly(x, "d", IngressUpdated(PATHLESS, REJECTED));
    TwoSteps(start, "d", Reloads(r), IngressUpdated(PATHLESS, REJECTED));
  }

  /** From every state a reload may succeed. */
  lemma ReloadCanSucceed(x: State) returns (r: Reloading)
    ensures ReloadPossible(x, r) && Succeeds(r)
  {
    hide Reloaded; hide Apart; hide ServerDocs; hide ClusterDocs; hide TlsDocs;
    FilesApart(x.server, x.cluster, x.tls, x.serverActive, x.clusterActive, x.tlsActive);
    var env1 := CanSucceed(ServerDocs(x.server, x.serverActive), x.env);
    var env2 := CanSucceed(ClusterDocs(x.cluster, x.clusterActive), env1);
    var env3 := CanSucceed(TlsDocs(x.tls, x.tlsActive), env2);
    r := Reloading(env1, true, env2, true, env3, true);
  }
}
