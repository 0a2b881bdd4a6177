/** ConfigBuilder (internal/bfeConfig/configBuilder.go) as the source writes it, over its three configuration objects. */
module ConfigBuilder {
  import opened Multimaps
  import opened Kube
  import opened Reloads
  import opened Documents
  import opened Builder
  import opened ServerDataConfig
  import opened ClusterConfig
  import opened TLSConfig
  import ServerData
  import Clusters
  import ClusterInvariants
  import Tls

  /** UpdateIngress takes x to x', along choices that were possible. */
  ghost predicate Updated(x: State, defaultBackend: string, u: Update, c: Choices, x': State, o: Outcome) {
    (x', o) == Builder.UpdateIngress(x, defaultBackend, u, c) && UpdatePossible(x, defaultBackend, u, c)
  }

  class ConfigBuilder {
    const defaultBackend: string

    const serverDataConf: ServerDataConfig
    const clusterConf: ClusterConfig
    const tlsConf: TLSConfig

    // the process and the directory that all three configurations write to
    const bfe: Bfe

    ghost function State(): State
      reads serverDataConf, serverDataConf.routeRuleCache, clusterConf, tlsConf, bfe
    {
      Builder.State.State(serverDataConf.State(), serverDataConf.Active(), clusterConf.State(), clusterConf.Active(), tlsConf.State(), tlsConf.Active(), bfe.State())
    }

    ghost predicate Valid()
      reads serverDataConf, serverDataConf.routeRuleCache
    {
      serverDataConf.Valid() && serverDataConf.defaultBackend == defaultBackend && clusterConf.defaultBackend == defaultBackend
    }

    constructor (defaultBackend: string, bfe: Bfe)
      ensures Valid() && this.bfe == bfe && this.defaultBackend == defaultBackend
      ensures State() == InitialState(1, bfe.State())
    {
      var init := 1;
      this.defaultBackend := defaultBackend;
      this.serverDataConf := new ServerDataConfig(defaultBackend, init);
      this.clusterConf := new ClusterConfig(defaultBackend, init);
      this.tlsConf := new TLSConfig(init);
      this.bfe := bfe;
    }

    lemma Parts()
      ensures Valid() <==> serverDataConf.Valid() && serverDataConf.defaultBackend == defaultBackend && clusterConf.defaultBackend == defaultBackend
      ensures State() == Builder.State.State(serverDataConf.State(), serverDataConf.Active(), clusterConf.State(), clusterConf.Active(),
                                             tlsConf.State(), tlsConf.Active(), bfe.State())
    {
    }

    /** accepted, checkOk and undoAccepted are the verdicts of the libraries; c also records the map iterations. */
    method UpdateIngress(u: Update, accepted: bool, checkOk: bool, undoAccepted: bool) returns (o: Outcome, ghost c: Choices)
      requires Valid()
      modifies serverDataConf, serverDataConf.routeRuleCache, clusterConf, tlsConf
      ensures Valid()
      ensures c.how.accepted == accepted && c.checkOk == checkOk && c.undo.accepted == undoAccepted
      ensures Updated(old(State()), defaultBackend, u, c, State(), o)
    {
      hide *;
      Parts();
      ghost var x := State();
      var namespace, name := u.ingress.namespace, u.ingress.name;
      var fine, how := serverDataConf.UpdateIngress(u.ingress, accepted);
      c := Choices(how, checkOk, how.(accepted := undoAccepted));
      ghost var s := serverDataConf.State();
      if !fine {
        FailsInServer(x, defaultBackend, u, c, s);
        Parts();
        return ServerFailed, c;
      }
      fine := clusterConf.UpdateIngress(u.ingress, u.services, u.endpoints, checkOk);
      ghost var cl := clusterConf.State();
      if !fine {
        ghost var undo := serverDataConf.DeleteIngress(namespace, name, undoAccepted);
        c := Choices(how, checkOk, undo);
        FailsInCluster(x, defaultBackend, u, c, s, serverDataConf.State(), cl);
        Parts();
        return ClusterFailed, c;
      }
      fine := tlsConf.UpdateIngress(namespace, name, u.secrets);
      if !fine {
        clusterConf.DeleteIngress(namespace, name);
        ghost var undo := serverDataConf.DeleteIngress(namespace, name, undoAccepted);
        c := Choices(how, checkOk, undo);
        FailsInTls(x, defaultBackend, u, c, s, serverDataConf.State(), cl, clusterConf.State(), tlsConf.State());
        Parts();
        return TlsFailed, c;
      }
      GoesThrough(x, defaultBackend, u, c, s, cl, tlsConf.State());
      Parts();
      return Done, c;
    }

    method DeleteIngress(namespace: string, name: string, accepted: bool) returns (ghost how: ServerData.Rendering)
      requires Valid()
      modifies serverDataConf, serverDataConf.routeRuleCache, clusterConf, tlsConf, bfe
      ensures Valid() && how.accepted == accepted
      ensures State() == Builder.DeleteIngress(old(State()), defaultBackend, namespace, name, how, bfe.State())
      ensures Possible(old(State()), defaultBackend, IngressDeleted(namespace, name, how, bfe.State()))
    {
      hide ServerData.DeleteIngress; hide Clusters.DeleteIngress; hide Tls.DeleteIngress; hide ServerData.DeletePossible; hide CertFilesDeleted;
      hide ServerDataConfig.State; hide ClusterConfig.State; hide TLSConfig.State; hide ServerDataConfig.Active; hide ClusterConfig.Active; hide TLSConfig.Active;
      how := serverDataConf.DeleteIngress(namespace, name, accepted);
      clusterConf.DeleteIngress(namespace, name);
      tlsConf.DeleteIngress(namespace, name, bfe);
    }

    method UpdateService(service: Service, endpoint: Option<Endpoints>) returns (outcome: Clusters.Outcome, ghost order: seq<string>)
      requires Valid()
      modifies clusterConf
      ensures Valid()
      ensures Clusters.ServiceOrder(old(State()).cluster, service, order)
      ensures State() == Step(old(State()), defaultBackend, ServiceUpdated(service, endpoint, order))
      ensures outcome == Clusters.UpdateService(old(State()).cluster, defaultBackend, service, endpoint, order).1
    {
      hide Clusters.UpdateService; hide Clusters.ServiceOrder;
      hide ServerDataConfig.State; hide ClusterConfig.State; hide TLSConfig.State; hide ServerDataConfig.Active; hide ClusterConfig.Active; hide TLSConfig.Active;
      outcome, order := clusterConf.UpdateService(service, endpoint);
    }

    method DeleteService(namespace: string, name: string)
      requires Valid()
      modifies clusterConf
      ensures Valid()
      ensures State() == Step(old(State()), defaultBackend, ServiceDeleted(namespace, name))
    {
      hide Clusters.DeleteService;
      hide ServerDataConfig.State; hide ClusterConfig.State; hide TLSConfig.State; hide ServerDataConfig.Active; hide ClusterConfig.Active; hide TLSConfig.Active;
      clusterConf.DeleteService(namespace, name);
    }

    method UpdateSecret(secret: Secret) returns (ok: bool)
      requires Valid()
      modifies tlsConf
      ensures Valid()
      ensures State() == Step(old(State()), defaultBackend, SecretUpdated(secret))
      ensures ok == Tls.UpdateSecret(old(State()).tls, secret).1
    {
      hide Tls.UpdateSecret;
      hide ServerDataConfig.State; hide ClusterConfig.State; hide TLSConfig.State; hide ServerDataConfig.Active; hide ClusterConfig.Active; hide TLSConfig.Active;
      ok := tlsConf.UpdateSecret(secret);
    }

    method DeleteSecret(namespace: string, name: string)
      requires Valid()
      modifies tlsConf, bfe
      ensures Valid()
      ensures State() == Step(old(State()), defaultBackend, SecretDeleted(namespace, name, bfe.State()))
      ensures Possible(old(State()), defaultBackend, SecretDeleted(namespace, name, bfe.State()))
    {
      hide Tls.DeleteSecret; hide CertFilesDeleted;
      hide ServerDataConfig.State; hide ClusterConfig.State; hide TLSConfig.State; hide ServerDataConfig.Active; hide ClusterConfig.Active; hide TLSConfig.Active;
      tlsConf.DeleteSecret(namespace, name, bfe);
    }

    method Reload() returns (ok: bool, ghost r: Reloading)
      requires Valid()
      modifies serverDataConf, clusterConf, tlsConf, bfe
      ensures Valid()
      ensures ReloadPossible(old(State()), r) && State() == Builder.Reload(old(State()), r) && ok == Succeeds(r)
    {
      hide Reloaded; hide ServerDocs; hide ClusterDocs; hide TlsDocs; hide ServerActivated; hide ClusterActivated; hide TlsActivated;
      hide ServerDataConfig.State; hide ClusterConfig.State; hide TLSConfig.State; hide ServerDataConfig.Active; hide ClusterConfig.Active; hide TLSConfig.Active;
      ok := serverDataConf.Reload(bfe);
      ghost var env1 := bfe.State();
      if !ok {
        return false, Reloading(env1, false, env1, false, env1, false);
      }
      ok := clusterConf.Reload(bfe);
      ghost var env2 := bfe.State();
      if !ok {
        return false, Reloading(env1, true, env2, false, env2, false);
      }
      ok := tlsConf.Reload(bfe);
      ghost var env3 := bfe.State();
      return ok, Reloading(env1, true, env2, true, env3, ok);
    }
  }

  // ---------------------------------------------------------------- the four ends of an update

  lemma FailsInServer(x: State, defaultBackend: string, u: Update, c: Choices, s: ServerData.ServerState)
    requires ServerData.Updates(x.server, defaultBackend, u.ingress, c.how, s, false) && ServerData.UpdatePossible(x.server, u.ingress, c.how)
    ensures Updated(x, defaultBackend, u, c, x.(server := s), ServerFailed)
  {
    hide ServerData.UpdateIngress; hide ServerData.UpdatePossible; hide UpdateCluster; hide UpdateTls; hide ServerData.DeleteIngress; hide Clusters.DeleteIngress;
  }

  lemma FailsInCluster(x: State, defaultBackend: string, u: Update, c: Choices, s: ServerData.ServerState, undone: ServerData.ServerState,
                       cl: Clusters.ClusterState)
    requires ServerData.Updates(x.server, defaultBackend, u.ingress, c.how, s, true) && ServerData.UpdatePossible(x.server, u.ingress, c.how)
    requires Clusters.Updates(x.cluster, defaultBackend, u.ingress, ClusterInvariants.EffectiveBalance(u.ingress.weights),
                              u.services, u.endpoints, c.checkOk, cl, false)
    requires ServerData.Deletes(s, defaultBackend, u.ingress.namespace, u.ingress.name, c.undo, undone)
    requires ServerData.DeletePossible(s, u.ingress.namespace, u.ingress.name, c.undo)
    ensures Updated(x, defaultBackend, u, c, x.(server := undone, cluster := cl), ClusterFailed)
  {
    hide ServerData.UpdateIngress; hide ServerData.UpdatePossible; hide ServerData.DeletePossible; hide Clusters.UpdateIngress; hide UpdateTls;
    hide ServerData.DeleteIngress; hide Clusters.DeleteIngress; hide ClusterInvariants.EffectiveBalance;
  }

  lemma FailsInTls(x: State, defaultBackend: string, u: Update, c: Choices, s: ServerData.ServerState, undone: ServerData.ServerState,
                   cl: Clusters.ClusterState, dropped: Clusters.ClusterState, t: Tls.TlsState)
    requires ServerData.Updates(x.server, defaultBackend, u.ingress, c.how, s, true) && ServerData.UpdatePossible(x.server, u.ingress, c.how)
    requires Clusters.Updates(x.cluster, defaultBackend, u.ingress, ClusterInvariants.EffectiveBalance(u.ingress.weights),
                              u.services, u.endpoints, c.checkOk, cl, true)
    requires (t, false) == Tls.UpdateIngress(x.tls, u.ingress.namespace, u.ingress.name, u.secrets)
    requires Clusters.Deletes(cl, defaultBackend, u.ingress.namespace, u.ingress.name, dropped)
    requires ServerData.Deletes(s, defaultBackend, u.ingress.namespace, u.ingress.name, c.undo, undone)
    requires ServerData.DeletePossible(s, u.ingress.namespace, u.ingress.name, c.undo)
    ensures Updated(x, defaultBackend, u, c, x.(server := undone, cluster := dropped, tls := t), TlsFailed)
  {
    hide ServerData.UpdateIngress; hide ServerData.UpdatePossible; hide ServerData.DeletePossible; hide Clusters.UpdateIngress; hide Tls.UpdateIngress;
    hide ServerData.DeleteIngress; hide Clusters.DeleteIngress; hide ClusterInvariants.EffectiveBalance;
  }

  lemma GoesThrough(x: State, defaultBackend: string, u: Update, c: Choices, s: ServerData.ServerState, cl: Clusters.ClusterState, t: Tls.TlsState)
    requires ServerData.Updates(x.server, defaultBackend, u.ingress, c.how, s, true) && ServerData.UpdatePossible(x.server, u.ingress, c.how)
    requires Clusters.Updates(x.cluster, defaultBackend, u.ingress, ClusterInvariants.EffectiveBalance(u.ingress.weights),
                              u.services, u.endpoints, c.checkOk, cl, true)
    requires (t, true) == Tls.UpdateIngress(x.tls, u.ingress.namespace, u.ingress.name, u.secrets)
    ensures Updated(x, defaultBackend, u, c, x.(server := s, cluster := cl, tls := t), Done)
  {
    hide ServerData.UpdateIngress; hide ServerData.UpdatePossible; hide Clusters.UpdateIngress; hide Tls.UpdateIngress;
    hide ServerData.DeleteIngress; hide Clusters.DeleteIngress; hide ClusterInvariants.EffectiveBalance;
  }
}
