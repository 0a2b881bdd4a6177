/** What a failed ConfigBuilder.UpdateIngress leaves behind, and what the ignored errors of DeleteIngress can be. */
module BuilderFailures {
  import opened Multimaps
  import opened Kube
  import opened Names
  import opened Annotations
  import opened RouteRules
  import opened Admission
  import opened Reloads
  import opened Documents
  import opened Builder
  import opened BuilderEffects
  import BuilderRuns
  import ServerData
  import ServerInvariants
  import Clusters
  import ClusterInvariants
  import Tls

  // ---------------------------------------------------------------- the error of an update

  /** Read off the state before the update: with the library accepting, the server data part fails exactly when one of the
      ingress's paths is blocked (an illegal host or path, or an older rule of another ingress that holds its key), or when its
      own annotation is malformed and one of its paths would get a rule in. Never through another ingress's annotation. */
  lemma FailsOnlyByItself(x: State, defaultBackend: string, u: Update, c: Choices)
    requires Indexed(x, defaultBackend) && UpdatePossible(x, defaultBackend, u, c) && c.how.accepted && u.ingress.rules != []
    ensures var paths, before := HostPaths(u.ingress.rules), Cleared(x.server, u.ingress);
            UpdateIngress(x, defaultBackend, u, c).1 == ServerFailed <==>
            (exists i :: 0 <= i < |paths| && Blocked(before, u.ingress, paths[i])) ||
            (GetRouteExpression(u.ingress.annotations).None? &&
             exists i :: 0 <= i < |paths| && Open(before, u.ingress, PathKey(u.ingress, paths[i])))
  {
    hide ServerInvariants.CacheOk; hide ServerData.UpdateIngress; hide ServerData.DeleteIngress; hide ServerData.UpdatePossible; hide ServerData.DeletePossible;
    hide UpdateCluster; hide UpdateTls; hide Clusters.DeleteIngress; hide GetRouteExpression; hide Cleared; hide Blocked; hide Open; hide HostPaths;
    UpdateFailsOnlyByItself(x.server, defaultBackend, u.ingress, c.how);
  }

  /** A failed update leaves the ingress no rule. Its clusters go too unless the error is the server data's, which comes before
      anything else and leaves clusters and secrets as they were. The secret associations of a TLS error are never undone. */
  lemma FailedUpdateLeaves(x: State, defaultBackend: string, u: Update, c: Choices)
    requires Indexed(x, defaultBackend) && UpdateIngress(x, defaultBackend, u, c).1 != Done
    ensures var (x', o) := UpdateIngress(x, defaultBackend, u, c); var i := ServerData.IngressName(u.ingress);
            && (forall r :: Live(x'.server.cache, r) ==> Live(x.server.cache, r) && r.ingress != i)
            && (if o == ServerFailed then x'.cluster == x.cluster else i !in x'.cluster.ingress2Cluster)
            && (if o == TlsFailed
                then forall n :: Has(x'.tls.ingress2secret, i, n) <==>
                       Has(x.tls.ingress2secret, i, n) || exists k :: 0 <= k < |u.secrets| && n == Tls.SecretName(u.secrets[k])
                else x'.tls == x.tls)
  {
    var i, ns, n := ServerData.IngressName(u.ingress), u.ingress.namespace, u.ingress.name;
    var (x', o) := UpdateIngress(x, defaultBackend, u, c);
    var cl := UpdateCluster(x, defaultBackend, u, c).0;
    var s := UpdateServer(x, defaultBackend, u, c).0;
    if u.ingress.rules != [] {
      ServerRules(x, defaultBackend, u, c);
    } else {
      forall r
        ensures Live(ServerData.DeleteIngress(s, defaultBackend, ns, n, c.undo).cache, r) ==> Live(x.server.cache, r) && r.ingress != i
      {
        ServerInvariants.DeleteIngressIsExact(x.server, defaultBackend, ns, n, c.undo, r);
      }
    }
    if o == ClusterFailed {
      RejectedOwnsNothing(x.cluster, defaultBackend, u.ingress, ClusterInvariants.EffectiveBalance(u.ingress.weights), u.services, u.endpoints, c.checkOk);
    }
    if o == TlsFailed {
      DeletedOwnsNothing(cl, defaultBackend, ns, n);
      forall k
        ensures Has(x'.tls.ingress2secret, i, k) <==>
                Has(x.tls.ingress2secret, i, k) || exists j :: 0 <= j < |u.secrets| && k == Tls.SecretName(u.secrets[j])
      {
        AssociationsKept(x.tls, ns, n, u.secrets, k);
      }
    }
    hide Live; hide Has; hide ServerData.DeleteIngress; hide Clusters.DeleteIngress; hide ServerData.UpdateIngress; hide Clusters.UpdateIngress;
    hide Tls.UpdateIngress; hide OwnCluster; hide Indexed; hide NamespacedName; hide HostPaths;
  }

  lemma DeletedOwnsNothing(s: Clusters.ClusterState, defaultBackend: string, namespace: string, name: string)
    ensures NamespacedName(namespace, name) !in Clusters.DeleteIngress(s, defaultBackend, namespace, name).ingress2Cluster
  {
  }

  lemma RejectedOwnsNothing(s: Clusters.ClusterState, defaultBackend: string, ingress: Ingress, balance: Balance,
                            services: map<string, Service>, endpoints: map<string, Endpoints>, checkOk: bool)
    requires !Clusters.UpdateIngress(s, defaultBackend, ingress, balance, services, endpoints, checkOk).1
    ensures ServerData.IngressName(ingress) !in
            Clusters.UpdateIngress(s, defaultBackend, ingress, balance, services, endpoints, checkOk).0.ingress2Cluster
  {
  }

  lemma {:induction false} Associated(t: Tls.TlsState, ingressName: string, secrets: seq<Secret>, n: string)
    ensures Has(Tls.Associate(t, ingressName, secrets).ingress2secret, ingressName, n) <==>
            Has(t.ingress2secret, ingressName, n) || exists k :: 0 <= k < |secrets| && n == Tls.SecretName(secrets[k])
  {
    if secrets != [] {
      var front, last := secrets[..|secrets| - 1], secrets[|secrets| - 1];
      Associated(t, ingressName, front, n);
      PutHas(Tls.Associate(t, ingressName, front).ingress2secret, ingressName, Tls.SecretName(last), ingressName, n);
      hide Multimaps.Put; hide Has; hide Tls.SecretName;
      assert forall k :: 0 <= k < |front| ==> front[k] == secrets[k];
      if k :| 0 <= k < |secrets| && n == Tls.SecretName(secrets[k]) {
        assert k < |front| ==> n == Tls.SecretName(front[k]);
      }
      if k :| 0 <= k < |front| && n == Tls.SecretName(front[k]) {
        assert n == Tls.SecretName(secrets[k]);
      }
    }
  }

  lemma {:induction false} SecretsKeepAssociations(t: Tls.TlsState, secrets: seq<Secret>)
    ensures Tls.UpdateSecrets(t, secrets).0.ingress2secret == t.ingress2secret
  {
    hide Tls.Secrets; hide NamespacedName;
    if secrets != [] {
      SecretsKeepAssociations(t, secrets[..|secrets| - 1]);
    }
  }

  lemma AssociationsKept(t: Tls.TlsState, namespace: string, name: string, secrets: seq<Secret>, n: string)
    ensures Has(Tls.UpdateIngress(t, namespace, name, secrets).0.ingress2secret, NamespacedName(namespace, name), n) <==>
            Has(t.ingress2secret, NamespacedName(namespace, name), n) || exists k :: 0 <= k < |secrets| && n == Tls.SecretName(secrets[k])
  {
    hide Tls.Associate; hide Tls.UpdateSecrets; hide NamespacedName; hide Tls.SecretName;
    Associated(t, NamespacedName(namespace, name), secrets, n);
    SecretsKeepAssociations(Tls.Associate(t, NamespacedName(namespace, name), secrets), secrets);
  }

  // ---------------------------------------------------------------- agreement of the two rendered tables

  /** The library accepts whenever rules are only withdrawn. */
  predicate Accepts(e: Event) {
    (e.IngressDeleted? ==> e.how.accepted) && (e.IngressUpdated? ==> e.choices.undo.accepted)
  }

  lemma StepKeepsIntegral(x: State, defaultBackend: string, e: Event)
    requires Indexed(x, defaultBackend) && ServerInvariants.Integral(x.server) && Possible(x, defaultBackend, e) && Accepts(e)
    ensures ServerInvariants.Integral(Step(x, defaultBackend, e).server)
  {
    hide ServerInvariants.Integral; hide ServerInvariants.CacheOk; hide ServerData.UpdateIngress; hide ServerData.DeleteIngress;
    hide ServerData.UpdatePossible; hide ServerData.DeletePossible;
    hide UpdateCluster; hide UpdateTls; hide Clusters.DeleteIngress; hide Clusters.UpdateService; hide Clusters.DeleteService; hide Clusters.ServiceOrder;
    hide Tls.DeleteIngress; hide Tls.DeleteSecret; hide Tls.UpdateSecret; hide CertFilesDeleted; hide ReloadPossible; hide KubeName;
    match e
    case IngressUpdated(u, c) =>
      ServerInvariants.UpdateIngressKeepsIntegral(x.server, defaultBackend, u.ingress, c.how);
      ServerInvariants.UpdateIngressKeepsCacheOk(x.server, defaultBackend, u.ingress, c.how);
      if UpdateServer(x, defaultBackend, u, c).1 && UpdateIngress(x, defaultBackend, u, c).1 != Done {
        ServerInvariants.DeleteIngressKeepsIntegral(UpdateServer(x, defaultBackend, u, c).0, defaultBackend,
                                                    u.ingress.namespace, u.ingress.name, c.undo);
      }
    case IngressDeleted(ns, n, how, _) => ServerInvariants.DeleteIngressKeepsIntegral(x.server, defaultBackend, ns, n, how);
    case ServiceUpdated(_, _, _) =>
    case ServiceDeleted(_, _) =>
    case SecretUpdated(_) =>
    case SecretDeleted(_, _, _) =>
    case Reloads(_) =>
  }

  lemma StartIsIntegral(version: Version, env: Env)
    ensures ServerInvariants.Integral(InitialState(version, env).server)
  {
  }

  /** Referential integrity over whole runs: the configured clusters are those the route table names. */
  lemma {:induction false} EveryRunIsIntegral(version: Version, env: Env, defaultBackend: string, events: seq<Event>)
    requires PossibleRun(InitialState(version, env), defaultBackend, events) && forall e :: e in events ==> Accepts(e)
    ensures ServerInvariants.Integral(RunFrom(InitialState(version, env), defaultBackend, events).server)
  {
    hide ServerInvariants.Integral; hide Indexed; hide Step; hide Possible;
    var start := InitialState(version, env);
    if events == [] {
      StartIsIntegral(version, env);
      return;
    }
    EveryRunIsIntegral(version, env, defaultBackend, events[..|events| - 1]);
    BuilderRuns.EveryRunKeepsIndexes(version, env, defaultBackend, events[..|events| - 1]);
    StepKeepsIntegral(RunFrom(start, defaultBackend, events[..|events| - 1]), defaultBackend, events[|events| - 1]);
  }
}
