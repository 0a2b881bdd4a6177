/** Every update of the three configurations marks what it changes with a version that BFE has not been given yet. */
module Versions {
  import opened Multimaps
  import opened Kube
  import opened Names
  import opened Reloads
  import opened Documents
  import RouteRules
  import ServerData
  import Clusters
  import Tls

  /** Each part is as before, or its version is not the active one. */
  ghost predicate Newer(docs: seq<Doc>, docs': seq<Doc>) {
    |docs'| == |docs| && forall i :: 0 <= i < |docs| ==> docs'[i] == docs[i] || Dirty(docs'[i])
  }

  lemma NewerIsSafe(docs: seq<Doc>, docs': seq<Doc>, env: Env)
    requires Safe(docs, env) && Newer(docs, docs')
    ensures Safe(docs', env)
  {
  }

  // ---------------------------------------------------------------- server data

  ghost predicate ServerBounded(s: ServerData.ServerState, a: ServerActive) {
    && a.host <= s.clock && a.route <= s.clock && a.clusterConf <= s.clock
    && s.hostVersion <= s.clock && s.routeVersion <= s.clock && s.clusterVersion <= s.clock
  }

  /** Every changed table has a version from after s. */
  ghost predicate ServerMoves(s: ServerData.ServerState, s': ServerData.ServerState) {
    && s.clock <= s'.clock && s'.hostVersion == s.hostVersion
    && ((s'.routeVersion == s.routeVersion && s'.routeTable == s.routeTable) || s.clock < s'.routeVersion <= s'.clock)
    && ((s'.clusterVersion == s.clusterVersion && s'.clusterConf == s.clusterConf) || s.clock < s'.clusterVersion <= s'.clock)
  }

  lemma ServerMoved(s: ServerData.ServerState, s': ServerData.ServerState, a: ServerActive)
    requires ServerBounded(s, a) && ServerMoves(s, s')
    ensures ServerBounded(s', a) && Newer(ServerDocs(s, a), ServerDocs(s', a))
  {
  }

  lemma ServerUpdateMoves(s: ServerData.ServerState, defaultBackend: string, ingress: Ingress, how: ServerData.Rendering)
    ensures ServerMoves(s, ServerData.UpdateIngress(s, defaultBackend, ingress, how).0)
  {
    hide ServerData.UpdateCache; hide RouteRules.Delete; hide ServerData.Render; hide ServerData.Configured; hide HostPaths;
  }

  lemma ServerDeleteMoves(s: ServerData.ServerState, defaultBackend: string, namespace: string, name: string, how: ServerData.Rendering)
    ensures ServerMoves(s, ServerData.DeleteIngress(s, defaultBackend, namespace, name, how))
  {
  }

  // ---------------------------------------------------------------- clusters

  ghost predicate ClusterBounded(s: Clusters.ClusterState, a: ClusterActive) {
    && a.gslb <= s.clock && a.table <= s.clock && s.gslbVersion <= s.clock && s.tableVersion <= s.clock
  }

  ghost predicate ClusterMoves(s: Clusters.ClusterState, s': Clusters.ClusterState) {
    && s.clock <= s'.clock
    && ((s'.gslbVersion == s.gslbVersion && s'.tableVersion == s.tableVersion && s'.gslb == s.gslb && s'.table == s.table)
        || (s.clock < s'.gslbVersion <= s'.clock && s.clock < s'.tableVersion <= s'.clock))
  }

  lemma {:induction false} PathsKeepVersions(s: Clusters.ClusterState, ingress: Ingress, paths: seq<(string, HttpPath)>, balance: Balance,
                                             services: map<string, Service>, endpoints: map<string, Endpoints>)
    ensures var s' := Clusters.ApplyPaths(s, ingress, paths, balance, services, endpoints);
            && s'.clock == s.clock && s'.gslbVersion == s.gslbVersion && s'.tableVersion == s.tableVersion
            && (paths != [] ==> NamespacedName(ingress.namespace, ingress.name) in s'.ingress2Cluster)
  {
    hide NamespacedName; hide ClusterName; hide Clusters.NewClusterBackend; hide Clusters.NewGslbCluster; hide PutAll;
    if paths != [] {
      PathsKeepVersions(s, ingress, paths[..|paths| - 1], balance, services, endpoints);
    }
  }

  /** The one update that changes the tables under an old version: an ingress whose rules have no path is rejected,
      it has no cluster to delete, and it was the first to bring the default backend in. */
  ghost predicate Unversioned(s: Clusters.ClusterState, defaultBackend: string, ingress: Ingress, endpoints: map<string, Endpoints>, checkOk: bool) {
    && ingress.rules != [] && HostPaths(ingress.rules) == [] && !checkOk
    && NamespacedName(ingress.namespace, ingress.name) !in s.ingress2Cluster
    && defaultBackend != "" && DefaultClusterName(defaultBackend) !in s.table
    && Clusters.Get(endpoints, defaultBackend).Some?
    && Clusters.NewSubCluster(Clusters.Get(endpoints, defaultBackend), NO_PORT) != Clusters.Instances([])
  }

  lemma DeleteVersions(s: Clusters.ClusterState, defaultBackend: string, namespace: string, name: string)
    ensures var s' := Clusters.DeleteIngress(s, defaultBackend, namespace, name);
            if NamespacedName(namespace, name) in s.ingress2Cluster
            then s'.clock == s.clock + 1 && s'.gslbVersion == s'.clock && s'.tableVersion == s'.clock
            else s' == s
  {
  }

  lemma DefaultChanges(s: Clusters.ClusterState, defaultBackend: string, ep: Option<Endpoints>)
    ensures var s' := Clusters.AddDefaultBackend(s, defaultBackend, ep);
            && s'.clock == s.clock && s'.gslbVersion == s.gslbVersion && s'.tableVersion == s.tableVersion
            && s'.ingress2Cluster == s.ingress2Cluster
            && if ep.Some? && DefaultClusterName(defaultBackend) !in s.table && Clusters.NewSubCluster(ep, NO_PORT) != Clusters.Instances([])
               then s'.table != s.table else s' == s
  {
  }

  /** An update gives both tables a new version, or leaves them alone, or is the unversioned one. */
  lemma UpdateVersions(s: Clusters.ClusterState, defaultBackend: string, ingress: Ingress, balance: Balance,
                       services: map<string, Service>, endpoints: map<string, Endpoints>, checkOk: bool)
    ensures var s' := Clusters.UpdateIngress(s, defaultBackend, ingress, balance, services, endpoints, checkOk).0;
            if ingress.rules == [] then s' == s
            else if checkOk || HostPaths(ingress.rules) != [] || NamespacedName(ingress.namespace, ingress.name) in s.ingress2Cluster
            then s'.clock == s.clock + 1 && s'.gslbVersion == s'.clock && s'.tableVersion == s'.clock
            else if defaultBackend == "" then s' == s
            else s' == Clusters.AddDefaultBackend(s, defaultBackend, Clusters.Get(endpoints, defaultBackend))
  {
    var paths := HostPaths(ingress.rules);
    var applied := Clusters.ApplyPaths(s, ingress, paths, balance, services, endpoints);
    var ep := Clusters.Get(endpoints, defaultBackend);
    var s' := if defaultBackend == "" then applied else Clusters.AddDefaultBackend(applied, defaultBackend, ep);
    PathsKeepVersions(s, ingress, paths, balance, services, endpoints);
    if paths == [] {
      assert applied == s;
    }
    hide NamespacedName; hide HostPaths; hide Clusters.DeleteIngress; hide Clusters.ApplyPaths; hide Clusters.AddDefaultBackend; hide Clusters.Get;
    DefaultChanges(applied, defaultBackend, ep);
    DeleteVersions(s', defaultBackend, ingress.namespace, ingress.name);
  }

  lemma UnversionedExactly(s: Clusters.ClusterState, defaultBackend: string, ingress: Ingress, balance: Balance,
                           services: map<string, Service>, endpoints: map<string, Endpoints>, checkOk: bool)
    requires s.gslbVersion <= s.clock && s.tableVersion <= s.clock
    ensures ClusterMoves(s, Clusters.UpdateIngress(s, defaultBackend, ingress, balance, services, endpoints, checkOk).0) <==>
            !Unversioned(s, defaultBackend, ingress, endpoints, checkOk)
  {
    hide NamespacedName; hide DefaultClusterName; hide HostPaths; hide Clusters.NewSubCluster; hide Clusters.UpdateIngress;
    hide Clusters.AddDefaultBackend; hide Clusters.Get;
    UpdateVersions(s, defaultBackend, ingress, balance, services, endpoints, checkOk);
    DefaultChanges(s, defaultBackend, Clusters.Get(endpoints, defaultBackend));
  }

  lemma ClusterDeleteMoves(s: Clusters.ClusterState, defaultBackend: string, namespace: string, name: string)
    ensures ClusterMoves(s, Clusters.DeleteIngress(s, defaultBackend, namespace, name))
  {
  }

  lemma ServiceDeleteMoves(s: Clusters.ClusterState, namespace: string, name: string)
    ensures ClusterMoves(s, Clusters.DeleteService(s, namespace, name))
  {
  }

  lemma {:induction false} ServiceUpdateMoves(s: Clusters.ClusterState, defaultBackend: string, service: Service, ep: Option<Endpoints>, order: seq<string>)
    requires Clusters.UpdateClusters(s, defaultBackend, service, ep, order).1 != Clusters.Crashed
    ensures var s' := Clusters.UpdateClusters(s, defaultBackend, service, ep, order).0;
            s.clock < s'.clock && s'.gslbVersion == s'.clock && s'.tableVersion == s'.clock
    decreases |order|
  {
    hide NamespacedName; hide ParsePort; hide Clusters.TargetPortOf; hide Clusters.NewSubCluster; hide Clusters.NewGslbCluster;
    if order != [] {
      var serviceName := NamespacedName(service.namespace, service.name);
      var port := Clusters.TargetPortOf(ParsePort(order[0]), service.ports);
      if !(port == NO_PORT && serviceName != defaultBackend) && order[0] in s.table {
        var s1 := s.(table := s.table[order[0] := s.table[order[0]][serviceName := Clusters.NewSubCluster(ep, port)]],
                     gslb := s.gslb[order[0] := Clusters.NewGslbCluster(service.namespace, service.name, map[])]);
        ServiceUpdateMoves(s1, defaultBackend, service, ep, order[1..]);
      }
    }
  }

  // ---------------------------------------------------------------- TLS

  ghost predicate TlsBounded(s: Tls.TlsState, a: TlsActive) {
    && a.serverCert <= s.clock && a.tlsRule <= s.clock && s.serverCertVersion <= s.clock && s.tlsRuleVersion <= s.clock
  }

  ghost predicate TlsMoves(s: Tls.TlsState, s': Tls.TlsState) {
    && s.clock <= s'.clock
    && ((s'.serverCertVersion == s.serverCertVersion && s'.tlsRuleVersion == s.tlsRuleVersion && s'.certConf == s.certConf && s'.certs == s.certs)
        || (s.clock < s'.serverCertVersion <= s'.clock && s.clock < s'.tlsRuleVersion <= s'.clock))
  }

  lemma TlsMovesOn(s: Tls.TlsState, s1: Tls.TlsState, s2: Tls.TlsState)
    requires TlsMoves(s, s1) && TlsMoves(s1, s2)
    ensures TlsMoves(s, s2)
  {
  }

  lemma TlsMoved(s: Tls.TlsState, s': Tls.TlsState, a: TlsActive)
    requires TlsBounded(s, a) && TlsMoves(s, s')
    ensures TlsBounded(s', a) && Newer(TlsDocs(s, a), TlsDocs(s', a))
    ensures s'.certConf == s.certConf || forall i :: 0 <= i < |TlsDocs(s', a)| ==> Dirty(TlsDocs(s', a)[i])
  {
  }

  lemma {:induction false} AssociateMoves(s: Tls.TlsState, ingressName: string, secrets: seq<Secret>)
    ensures var s' := Tls.Associate(s, ingressName, secrets); s' == s.(ingress2secret := s'.ingress2secret)
  {
    if secrets != [] {
      AssociateMoves(s, ingressName, secrets[..|secrets| - 1]);
    }
  }

  lemma SecretUpdateMoves(s: Tls.TlsState, secret: Secret)
    ensures TlsMoves(s, Tls.UpdateSecret(s, secret).0)
  {
  }

  lemma SecretDeleteMoves(s: Tls.TlsState, namespace: string, name: string)
    ensures TlsMoves(s, Tls.DeleteSecret(s, namespace, name))
  {
  }

  lemma {:induction false} SecretUpdatesMove(s: Tls.TlsState, secrets: seq<Secret>)
    ensures TlsMoves(s, Tls.UpdateSecrets(s, secrets).0)
  {
    hide Tls.UpdateSecret; hide TlsMoves;
    if secrets == [] {
      TlsStays(s);
    } else {
      var s1 := Tls.UpdateSecrets(s, secrets[..|secrets| - 1]).0;
      SecretUpdatesMove(s, secrets[..|secrets| - 1]);
      SecretUpdateMoves(s1, secrets[|secrets| - 1]);
      if Tls.UpdateSecrets(s, secrets[..|secrets| - 1]).1 {
        TlsMovesOn(s, s1, Tls.UpdateSecret(s1, secrets[|secrets| - 1]).0);
      }
    }
  }

  lemma TlsStays(s: Tls.TlsState)
    ensures TlsMoves(s, s)
  {
  }

  lemma TlsUpdateMoves(s: Tls.TlsState, namespace: string, name: string, secrets: seq<Secret>)
    ensures TlsMoves(s, Tls.UpdateIngress(s, namespace, name, secrets).0)
  {
    hide Tls.UpdateSecrets; hide Tls.Associate; hide NamespacedName;
    var associated := Tls.Associate(s, NamespacedName(namespace, name), secrets);
    AssociateMoves(s, NamespacedName(namespace, name), secrets);
    SecretUpdatesMove(associated, secrets);
  }

  lemma TlsDeleteMoves(s: Tls.TlsState, namespace: string, name: string)
    ensures TlsMoves(s, Tls.DeleteIngress(s, namespace, name))
  {
  }
}
